/** What conf.c makes of a two-level document: the event-driven parser as a machine with a stack of
    scalars, and the direct reading of the tree that it must agree with. */
module ParserSpec {
  import opened Yaml
  import opened Text
  import Validator

  const UNSET := -1
  const ROOT_DEPTH := 1
  const MAX_DEPTH := 2
  const DEFAULT_ARGS := 3

  /** struct conf_pool. A string that has not been set is empty; a number that has not been set is -1. */
  datatype Pool = Pool(name: string, port: int, addr: string, workers: int, timeout: int, backlog: int,
                       maxSlots: int, datadir: string)

  /** Undefined is not an error the program reports: from there on what it does has no meaning, since
      a number does not fit in an int, or since a scalar with a NUL in it has been copied. */
  datatype Reason = EmptyScalar | Duplicate | NotANumber | Undefined

  datatype Result<T> = Ok(value: T) | Err(reason: Reason)

  /** What the memory of the i-th pool holds before it is initialised. */
  type Memory = nat -> Pool

  /** conf_pool_init sets every field except max_slots. */
  function InitPool(old_: Pool, name: string): Pool {
    Pool(name, UNSET, "", UNSET, UNSET, UNSET, old_.maxSlots, "")
  }

  function SetString(field: string, value: string): Result<string> {
    if field != "" then Err(Duplicate) else Ok(value)
  }

  function SetNum(field: int, value: string): Result<int> {
    if field != UNSET then Err(Duplicate)
    else if !Fits(value) then Err(Undefined)
    else if Number(value) < 0 then Err(NotANumber)
    else Ok(Number(value))
  }

  predicate IsNumKey(key: string) {
    key == "port" || key == "timeout" || key == "workers" || key == "backlog" || key == "max_slots"
  }

  predicate IsStringKey(key: string) {
    key == "addr" || key == "datadir"
  }

  function NumField(p: Pool, key: string): int {
    if key == "port" then p.port
    else if key == "timeout" then p.timeout
    else if key == "workers" then p.workers
    else if key == "backlog" then p.backlog
    else p.maxSlots
  }

  function WithNum(p: Pool, key: string, n: int): Pool {
    if key == "port" then p.(port := n)
    else if key == "timeout" then p.(timeout := n)
    else if key == "workers" then p.(workers := n)
    else if key == "backlog" then p.(backlog := n)
    else p.(maxSlots := n)
  }

  function StringField(p: Pool, key: string): string {
    if key == "addr" then p.addr else p.datadir
  }

  function WithString(p: Pool, key: string, v: string): Pool {
    if key == "addr" then p.(addr := v) else p.(datadir := v)
  }

  /** One setting of a pool. Keys that are not in the command table are ignored. */
  function Set(p: Pool, key: string, value: string): Result<Pool> {
    if IsStringKey(key) then
      match SetString(StringField(p, key), value)
      case Ok(v) => Ok(WithString(p, key, v))
      case Err(r) => Err(r)
    else if IsNumKey(key) then
      match SetNum(NumField(p, key), value)
      case Ok(n) => Ok(WithNum(p, key, n))
      case Err(r) => Err(r)
    else Ok(p)
  }

  // ----- the direct reading of a tree -----

  /** A scalar that can be pushed and copied. */
  predicate IsText(v: string) {
    v != "" && NoNul(v)
  }

  /** What becomes of a scalar when it is pushed. An empty one is an error. A copy is as long as the
      part up to a NUL, but is terminated at the length of the whole. */
  function Copied(v: string): (r: Result<string>)
    ensures r.Ok? <==> IsText(v)
    ensures r.Ok? ==> r.value == v
  {
    if v == "" then Err(EmptyScalar) else if !NoNul(v) then Err(Undefined) else Ok(v)
  }

  function SetChecked(p: Pool, key: string, value: string): Result<Pool> {
    match Copied(value)
    case Ok(v) => Set(p, key, v)
    case Err(r) => Err(r)
  }

  /** Every element of a sequence is taken for a value of the key in front of it. */
  function FoldItems(p: Pool, key: string, items: seq<Node>): Result<Pool>
    requires Validator.AllScalars(items)
    decreases |items|
  {
    if items == [] then Ok(p) else
    match SetChecked(p, key, items[0].value)
    case Ok(q) => FoldItems(q, key, items[1..])
    case Err(r) => Err(r)
  }

  function FoldPool(p: Pool, pairs: seq<Pair>): Result<Pool>
    requires Validator.AllSettings(pairs)
    decreases |pairs|
  {
    if pairs == [] then Ok(p) else
    assert Validator.IsSetting(pairs[0]);
    match FoldSetting(p, pairs[0])
    case Ok(q) => FoldPool(q, pairs[1..])
    case Err(r) => Err(r)
  }

  function FoldSetting(p: Pool, setting: Pair): Result<Pool>
    requires Validator.IsSetting(setting)
  {
    var key := setting.key.value;
    match Copied(key)
    case Err(r) => Err(r)
    case Ok(_) =>
      match setting.value
      case ScalarNode(v) => SetChecked(p, key, v)
      case SequenceNode(items) => FoldItems(p, key, items)
  }

  /** A two-level document: a mapping from scalars to mappings from scalars to scalars or to flat
      sequences of scalars. */
  predicate IsTwoLevelPair(p: Pair) {
    p.key.ScalarNode? && p.value.MappingNode? && Validator.AllSettings(p.value.pairs)
  }

  predicate AllTwoLevel(pairs: seq<Pair>) {
    forall i | 0 <= i < |pairs| :: IsTwoLevelPair(pairs[i])
  }

  function FoldRoot(mem: Memory, pairs: seq<Pair>, pools: seq<Pool>): Result<seq<Pool>>
    requires AllTwoLevel(pairs)
    decreases |pairs|
  {
    if pairs == [] then Ok(pools) else
    assert IsTwoLevelPair(pairs[0]);
    var name := pairs[0].key.value;
    match Copied(name)
    case Err(r) => Err(r)
    case Ok(_) =>
      match FoldPool(InitPool(mem(|pools|), name), pairs[0].value.pairs)
      case Ok(p) => FoldRoot(mem, pairs[1..], pools + [p])
      case Err(r) => Err(r)
  }

  // ----- the machine -----

  /** While it parses: the depth, the sequence flag, the stack of scalars and the pools so far.
      A fault is a failed assertion, a pop from an empty stack, or a fourth scalar on the stack. */
  datatype State =
    | Going(depth: nat, inSeq: bool, arg: seq<string>, pools: seq<Pool>)
    | Done(pools: seq<Pool>)
    | Failed(reason: Reason)
    | Fault

  /** conf_handler, on the pool that was begun last. */
  function Handle(arg: seq<string>, pools: seq<Pool>): Result<seq<Pool>>
    requires |arg| >= 1 && |pools| >= 1
  {
    var n, before, p := |arg|, pools[..|pools| - 1], pools[|pools| - 1];
    if n == 1 then Ok(before + [InitPool(p, arg[0])])
    else match Set(p, arg[n - 2], arg[n - 1])
         case Ok(q) => Ok(before + [q])
         case Err(r) => Err(r)
  }

  function Pop(s: State): State {
    if s.Going? && s.arg != [] then s.(arg := s.arg[..|s.arg| - 1]) else Fault
  }

  /** A leaf: the handler runs, and the value (and outside sequences the key) leaves the stack. */
  function Leaf(s: State): State {
    if !s.Going? || s.depth != MAX_DEPTH || s.arg == [] || s.pools == [] then Fault
    else match Handle(s.arg, s.pools)
         case Err(r) => Failed(r)
         case Ok(pools) =>
           var t := Pop(s.(pools := pools));
           if s.inSeq then t else Pop(t)
  }

  function NewPool(mem: Memory, s: State): State
    requires s.Going? && |s.arg| >= 1
  {
    match Handle(s.arg, s.pools + [mem(|s.pools|)])
    case Err(r) => Failed(r)
    case Ok(pools) => s.(pools := pools)
  }

  /** One event of conf_parse_core. */
  function Step(mem: Memory, s: State, e: Event): State {
    if !s.Going? then s else
    match e
    case MappingEnd =>
      if s.depth == 0 then Fault
      else if s.depth == 1 then (if s.arg == [] then Done(s.pools) else Fault)
      else if s.depth == 2 then Pop(s.(depth := 1))
      else s.(depth := s.depth - 1)
    case MappingStart => s.(depth := s.depth + 1)
    case SequenceStart => s.(inSeq := true)
    case SequenceEnd => Pop(s.(inSeq := false))
    case Scalar(v) =>
      if Copied(v).Err? then Failed(Copied(v).reason)
      else if |s.arg| >= DEFAULT_ARGS then Fault
      else
        var t := s.(arg := s.arg + [v]);
        if s.inSeq then Leaf(t)
        else if s.depth == ROOT_DEPTH then NewPool(mem, t)
        else if |t.arg| == s.depth + 1 then Leaf(t)
        else t
    case _ => Fault
  }

  function Run(mem: Memory, s: State, events: seq<Event>): State
    decreases |events|
  {
    if events == [] then s else Run(mem, Step(mem, s, events[0]), events[1..])
  }

  /** How many scalars are on the stack, and which is at the bottom: between pools none; then the
      name of the pool, and above it inside the pool at most one pending key, which a sequence
      always has. */
  predicate Shape(s: State) {
    match s
    case Going(depth, inSeq, arg, pools) =>
      && (depth == 1 || depth == 2)
      && (depth == 1 ==> !inSeq && |arg| <= 1)
      && (depth == 2 ==> 1 <= |arg| <= 2 && (inSeq ==> |arg| == 2))
      && (arg != [] ==> pools != [] && arg[0] == pools[|pools| - 1].name)
    case Fault => false
    case _ => true
  }

  /** Every state on the way has the shape. */
  predicate Safe(mem: Memory, s: State, events: seq<Event>)
    decreases |events|
  {
    Shape(s) && (events == [] || Safe(mem, Step(mem, s, events[0]), events[1..]))
  }

  /** The events end in success, and not before the last of them, or in an error that is reported. */
  predicate Ends(mem: Memory, s: State, events: seq<Event>)
    decreases |events|
  {
    events != [] &&
    match Step(mem, s, events[0])
    case Going(_, _, _, _) => Ends(mem, Step(mem, s, events[0]), events[1..])
    case Done(_) => |events| == 1
    case Failed(r) => r != Undefined
    case Fault => false
  }

  // ----- running over parts of a document -----

  lemma {:induction false} RunAppend(mem: Memory, s: State, a: seq<Event>, b: seq<Event>)
    ensures Run(mem, s, a + b) == Run(mem, Run(mem, s, a), b)
    ensures Safe(mem, s, a + b) <==> Safe(mem, s, a) && Safe(mem, Run(mem, s, a), b)
    decreases |a|
  {
    hide Step, Shape;
    if a == [] {
      assert a + b == b;
      SafeHere(mem, s, b);
    } else {
      RunAppend(mem, Step(mem, s, a[0]), a[1..], b);
      assert (a + b)[1..] == a[1..] + b;
    }
  }

  lemma SafeHere(mem: Memory, s: State, events: seq<Event>)
    ensures Safe(mem, s, events) ==> Shape(s)
  {
  }

  lemma RunOne(mem: Memory, s: State, e: Event)
    ensures Run(mem, s, [e]) == Step(mem, s, e)
    ensures Safe(mem, s, [e]) <==> Shape(s) && Shape(Step(mem, s, e))
  {
    hide Step, Shape;
    assert [e][1..] == [];
  }

  lemma {:induction false} RunStopped(mem: Memory, s: State, events: seq<Event>)
    requires !s.Going? && s != Fault
    ensures Run(mem, s, events) == s && Safe(mem, s, events)
    decreases |events|
  {
    if events != [] {
      RunStopped(mem, s, events[1..]);
    }
  }

  lemma RunBracketed(mem: Memory, s: State, open: Event, inside: seq<Event>, close: Event)
    requires Shape(s)
    ensures Run(mem, s, [open] + inside + [close]) == Step(mem, Run(mem, Step(mem, s, open), inside), close)
    ensures Safe(mem, s, [open] + inside + [close]) <==>
            Safe(mem, Step(mem, s, open), inside) && Shape(Run(mem, s, [open] + inside + [close]))
  {
    hide Step, Shape;
    var m := Step(mem, s, open);
    RunAppend(mem, s, [open] + inside, [close]);
    RunAppend(mem, s, [open], inside);
    RunOne(mem, s, open);
    RunOne(mem, Run(mem, m, inside), close);
    SafeHere(mem, m, inside);
    SafeEnds(mem, m, inside);
  }

  lemma {:induction false} SafeEnds(mem: Memory, s: State, events: seq<Event>)
    ensures Safe(mem, s, events) ==> Shape(Run(mem, s, events))
    decreases |events|
  {
    hide Step, Shape;
    if events != [] {
      SafeEnds(mem, Step(mem, s, events[0]), events[1..]);
    }
  }

  lemma SetKeepsName(p: Pool, key: string, value: string)
    ensures Set(p, key, value).Ok? ==> Set(p, key, value).value.name == p.name
  {
  }

  /** What a stretch of a document inside a pool does: it turns the pool p into the result. */
  predicate Turns(mem: Memory, s: State, events: seq<Event>, t: State, before: seq<Pool>, r: Result<Pool>) {
    && Safe(mem, s, events)
    && match r
       case Err(reason) => Run(mem, s, events) == Failed(reason)
       case Ok(q) => t.Going? && Run(mem, s, events) == t.(pools := before + [q])
  }

  lemma RunItem(mem: Memory, name: string, key: string, v: string, before: seq<Pool>, p: Pool)
    requires name == p.name
    ensures var s := Going(2, true, [name, key], before + [p]);
            Turns(mem, s, [Scalar(v)], s, before, SetChecked(p, key, v))
  {
    hide Set;
    var s := Going(2, true, [name, key], before + [p]);
    RunOne(mem, s, Scalar(v));
    SetKeepsName(p, key, v);
    var t := s.(arg := s.arg + [v]);
    assert t.arg == [name, key, v];
    assert t.pools[..|t.pools| - 1] == before;
    assert t.arg[..2] == s.arg;
  }

  lemma {:induction false} RunItems(mem: Memory, name: string, key: string, items: seq<Node>,
                                    before: seq<Pool>, p: Pool)
    requires name == p.name && Validator.AllScalars(items)
    ensures var s := Going(2, true, [name, key], before + [p]);
            Turns(mem, s, FlattenItems(items), s, before, FoldItems(p, key, items))
    decreases |items|
  {
    hide Step, SetChecked;
    if items != [] {
      var s := Going(2, true, [name, key], before + [p]);
      var rest := FlattenItems(items[1..]);
      var v := items[0].value;
      RunItem(mem, name, key, v, before, p);
      RunAppend(mem, s, Flatten(items[0]), rest);
      match SetChecked(p, key, v) {
        case Ok(q) =>
          SetCheckedKeepsName(p, key, v);
          RunItems(mem, name, key, items[1..], before, q);
        case Err(r) =>
          RunStopped(mem, Failed(r), rest);
      }
    }
  }

  lemma SetCheckedKeepsName(p: Pool, key: string, value: string)
    ensures SetChecked(p, key, value).Ok? ==> SetChecked(p, key, value).value.name == p.name
  {
    SetKeepsName(p, key, value);
  }

  /** One setting: afterwards the stack holds the name of the pool again, and nothing else. */
  lemma RunSetting(mem: Memory, setting: Pair, before: seq<Pool>, p: Pool)
    requires Validator.IsSetting(setting)
    ensures var s := Going(2, false, [p.name], before + [p]);
            Turns(mem, s, FlattenPair(setting), s, before, FoldSetting(p, setting))
  {
    var s := Going(2, false, [p.name], before + [p]);
    var key := setting.key.value;
    RunKey(mem, p.name, key, before + [p]);
    RunAppend(mem, s, Flatten(setting.key), Flatten(setting.value));
    if Copied(key).Err? {
      RunStopped(mem, Failed(Copied(key).reason), Flatten(setting.value));
    } else {
      match setting.value {
        case ScalarNode(v) => RunValue(mem, p.name, key, v, before, p);
        case SequenceNode(items) => RunSequence(mem, p.name, key, items, before, p);
      }
    }
  }

  lemma RunKey(mem: Memory, name: string, key: string, pools: seq<Pool>)
    requires pools != [] && name == pools[|pools| - 1].name
    ensures var s := Going(2, false, [name], pools);
            && Safe(mem, s, [Scalar(key)])
            && Run(mem, s, [Scalar(key)]) ==
               if Copied(key).Err? then Failed(Copied(key).reason) else Going(2, false, [name, key], pools)
  {
    var s := Going(2, false, [name], pools);
    RunOne(mem, s, Scalar(key));
    assert s.arg + [key] == [name, key];
  }

  lemma RunValue(mem: Memory, name: string, key: string, v: string, before: seq<Pool>, p: Pool)
    requires name == p.name
    ensures Turns(mem, Going(2, false, [name, key], before + [p]), [Scalar(v)],
                  Going(2, false, [name], before + [p]), before, SetChecked(p, key, v))
  {
    hide Set;
    var s := Going(2, false, [name, key], before + [p]);
    RunOne(mem, s, Scalar(v));
    SetKeepsName(p, key, v);
    var t := s.(arg := s.arg + [v]);
    assert t.arg == [name, key, v];
    assert t.pools[..|t.pools| - 1] == before;
    assert t.arg[..2] == s.arg && s.arg[..1] == [name];
  }

  lemma RunSequence(mem: Memory, name: string, key: string, items: seq<Node>, before: seq<Pool>, p: Pool)
    requires name == p.name && Validator.AllScalars(items)
    ensures Turns(mem, Going(2, false, [name, key], before + [p]), Flatten(SequenceNode(items)),
                  Going(2, false, [name], before + [p]), before, FoldItems(p, key, items))
  {
    hide FoldItems;
    var s := Going(2, false, [name, key], before + [p]);
    RunBracketed(mem, s, SequenceStart, FlattenItems(items), SequenceEnd);
    RunItems(mem, name, key, items, before, p);
    FoldItemsKeepsName(p, key, items);
    assert [name, key][..1] == [name];
  }

  lemma {:induction false} FoldItemsKeepsName(p: Pool, key: string, items: seq<Node>)
    requires Validator.AllScalars(items)
    ensures FoldItems(p, key, items).Ok? ==> FoldItems(p, key, items).value.name == p.name
    decreases |items|
  {
    if items != [] {
      SetCheckedKeepsName(p, key, items[0].value);
      if SetChecked(p, key, items[0].value).Ok? {
        FoldItemsKeepsName(SetChecked(p, key, items[0].value).value, key, items[1..]);
      }
    }
  }

  lemma FoldSettingKeepsName(p: Pool, setting: Pair)
    requires Validator.IsSetting(setting)
    ensures FoldSetting(p, setting).Ok? ==> FoldSetting(p, setting).value.name == p.name
  {
    match setting.value
    case ScalarNode(v) => SetCheckedKeepsName(p, setting.key.value, v);
    case SequenceNode(items) => FoldItemsKeepsName(p, setting.key.value, items);
  }

  lemma {:induction false} RunSettings(mem: Memory, pairs: seq<Pair>, before: seq<Pool>, p: Pool)
    requires Validator.AllSettings(pairs)
    ensures var s := Going(2, false, [p.name], before + [p]);
            Turns(mem, s, FlattenPairs(pairs), s, before, FoldPool(p, pairs))
    ensures FoldPool(p, pairs).Ok? ==> FoldPool(p, pairs).value.name == p.name
    decreases |pairs|
  {
    hide Step, FoldSetting, Validator.IsSetting;
    if pairs != [] {
      var s, rest := Going(2, false, [p.name], before + [p]), FlattenPairs(pairs[1..]);
      assert Validator.IsSetting(pairs[0]);
      RunSetting(mem, pairs[0], before, p);
      RunAppend(mem, s, FlattenPair(pairs[0]), rest);
      match FoldSetting(p, pairs[0]) {
        case Ok(q) =>
          FoldSettingKeepsName(p, pairs[0]);
          RunSettings(mem, pairs[1..], before, q);
        case Err(r) =>
          RunStopped(mem, Failed(r), rest);
      }
    }
  }

  // ----- whole pools, and the whole document -----

  /** A root key begins a pool; its mapping fills it in; afterwards the stack is empty. */
  lemma RunPool(mem: Memory, pair: Pair, pools: seq<Pool>)
    requires IsTwoLevelPair(pair) && IsText(pair.key.value)
    ensures Turns(mem, Going(1, false, [], pools), FlattenPair(pair), Going(1, false, [], pools), pools,
                  FoldPool(InitPool(mem(|pools|), pair.key.value), pair.value.pairs))
  {
    hide FoldPool;
    var s, name := Going(1, false, [], pools), pair.key.value;
    var p := InitPool(mem(|pools|), name);
    var m := Going(1, false, [name], pools + [p]);
    RunName(mem, name, pools);
    RunAppend(mem, s, Flatten(pair.key), Flatten(pair.value));
    RunBracketed(mem, m, MappingStart, FlattenPairs(pair.value.pairs), MappingEnd);
    RunSettings(mem, pair.value.pairs, pools, p);
    assert [name][..0] == [];
  }

  lemma RunName(mem: Memory, name: string, pools: seq<Pool>)
    ensures var s := Going(1, false, [], pools);
            && Safe(mem, s, [Scalar(name)])
            && Run(mem, s, [Scalar(name)]) ==
               if Copied(name).Err? then Failed(Copied(name).reason)
               else Going(1, false, [name], pools + [InitPool(mem(|pools|), name)])
  {
    var s := Going(1, false, [], pools);
    RunOne(mem, s, Scalar(name));
    assert s.arg + [name] == [name];
    assert (pools + [mem(|pools|)])[..|pools|] == pools;
  }

  lemma {:induction false} RunRootPairs(mem: Memory, pairs: seq<Pair>, pools: seq<Pool>)
    requires AllTwoLevel(pairs)
    ensures var s := Going(1, false, [], pools);
            && Safe(mem, s, FlattenPairs(pairs))
            && Run(mem, s, FlattenPairs(pairs)) ==
               match FoldRoot(mem, pairs, pools)
               case Ok(all) => Going(1, false, [], all)
               case Err(r) => Failed(r)
    decreases |pairs|
  {
    hide Step, FoldPool, IsTwoLevelPair;
    if pairs != [] {
      var s, pair, rest := Going(1, false, [], pools), pairs[0], FlattenPairs(pairs[1..]);
      assert IsTwoLevelPair(pair);
      TwoLevelParts(pair);
      var name := pair.key.value;
      RunAppend(mem, s, FlattenPair(pair), rest);
      if Copied(name).Err? {
        RunName(mem, name, pools);
        RunAppend(mem, s, Flatten(pair.key), Flatten(pair.value));
        RunStopped(mem, Failed(Copied(name).reason), Flatten(pair.value));
        RunStopped(mem, Failed(Copied(name).reason), rest);
      } else {
        RunPool(mem, pair, pools);
        match FoldPool(InitPool(mem(|pools|), name), pair.value.pairs) {
          case Ok(p) => RunRootPairs(mem, pairs[1..], pools + [p]);
          case Err(r) => RunStopped(mem, Failed(r), rest);
        }
      }
    }
  }

  lemma TwoLevelParts(pair: Pair)
    requires IsTwoLevelPair(pair)
    ensures pair.key.ScalarNode? && pair.value.MappingNode? && Validator.AllSettings(pair.value.pairs)
  {
  }

  /** The root mapping after its opening event, up to and including its end. */
  function Body(pairs: seq<Pair>): seq<Event> {
    FlattenPairs(pairs) + [MappingEnd]
  }

  const START := Going(1, false, [], [])

  /** On a two-level document the machine builds exactly the pools of the direct reading, or fails
      for the same reason; it ends with an empty stack at depth 0; and on the way the stack always
      has its shape, so that nothing is ever popped from an empty stack and arg never grows. */
  lemma ParsesTheTree(mem: Memory, pairs: seq<Pair>)
    requires AllTwoLevel(pairs)
    ensures Safe(mem, START, Body(pairs))
    ensures Run(mem, START, Body(pairs)) ==
            match FoldRoot(mem, pairs, [])
            case Ok(pools) => Done(pools)
            case Err(r) => Failed(r)
  {
    hide FoldRoot, AllTwoLevel;
    RunRootPairs(mem, pairs, []);
    var s := Run(mem, START, FlattenPairs(pairs));
    RunAppend(mem, START, FlattenPairs(pairs), [MappingEnd]);
    RunOne(mem, s, MappingEnd);
  }

  lemma {:induction false} EndsWithLast(mem: Memory, s: State, events: seq<Event>, e: Event)
    requires s.Going? && Safe(mem, s, events + [e])
    requires Run(mem, s, events).Going? || Run(mem, s, events).Failed?
    requires var t := Run(mem, s, events + [e]); t.Done? || (t.Failed? && t.reason != Undefined)
    ensures Ends(mem, s, events + [e])
    decreases |events|
  {
    hide Step;
    if events == [] {
      RunOne(mem, s, e);
      assert [] + [e] == [e];
    } else {
      var t := Step(mem, s, events[0]);
      assert (events + [e])[1..] == events[1..] + [e];
      if t.Going? {
        EndsWithLast(mem, t, events[1..], e);
      } else {
        SafeHere(mem, t, events[1..] + [e]);
        if t != Fault {
          RunStopped(mem, t, events[1..]);
          RunStopped(mem, t, events[1..] + [e]);
        }
      }
    }
  }

  /** So the parser may be run on any two-level document whose numbers fit. */
  lemma BodyEnds(mem: Memory, pairs: seq<Pair>)
    requires AllTwoLevel(pairs) && FoldRoot(mem, pairs, []) != Err(Undefined)
    ensures Ends(mem, START, Body(pairs))
  {
    hide FoldRoot, AllTwoLevel, Safe, Run, Ends;
    ParsesTheTree(mem, pairs);
    RunRootPairs(mem, pairs, []);
    EndsWithLast(mem, START, FlattenPairs(pairs), MappingEnd);
  }

  /** What the validator accepts is a two-level document. */
  lemma ConformingIsTwoLevel(root: Node)
    requires Validator.Conforms(root)
    ensures AllTwoLevel(root.pairs)
  {
    forall i | 0 <= i < |root.pairs| ensures IsTwoLevelPair(root.pairs[i]) {
      assert Validator.IsPool(root.pairs[i].value);
    }
  }
}
