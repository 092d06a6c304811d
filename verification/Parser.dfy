/** conf.c: the configuration object and the parser that fills it in. */
module Parser {
  import opened ArrayStack
  import opened ParserSpec
  import opened Settings
  import opened Text
  import opened Yaml

  const DEFAULT_POOL := 8

  class Conf {
    const events: seq<Event>  // what the YAML parser will deliver
    const mem: Memory         // what the memory of new pools will hold
    var next: nat
    const arg: GrowArray<string>
    const pool: GrowArray<Pool>
    var depth: nat
    var inSeq: bool

    ghost predicate Valid()
      reads this, arg, pool
    {
      && arg.Valid() && arg.nalloc == DEFAULT_ARGS
      && pool.Valid()
      && (arg as object) != pool
    }

    ghost function State(): State
      requires Valid()
      reads this, arg, arg.elem, pool, pool.elem
    {
      Going(depth, inSeq, arg.Contents(), pool.Contents())
    }

    /** conf_open, given the events and the memory. */
    constructor (events: seq<Event>, mem: Memory)
      ensures Valid() && State() == Going(0, false, [], []) && next == 0
      ensures this.events == events && this.mem == mem
      ensures arg.nalloc == 3 && pool.nalloc == 8
      ensures fresh(arg) && fresh(arg.elem) && fresh(pool) && fresh(pool.elem)
    {
      this.events := events;
      this.mem := mem;
      next := 0;
      depth := 0;
      inSeq := false;
      var a := new GrowArray<string>(DEFAULT_ARGS);
      var p := new GrowArray<Pool>(DEFAULT_POOL);
      arg := a;
      pool := p;
    }

    /** conf_push_scalar. */
    method PushScalar(v: string) returns (status: int)
      requires Valid() && Copied(v) != Err(Undefined) && (v != "" ==> arg.nelem < DEFAULT_ARGS)
      modifies arg, arg.elem
      ensures Valid() && arg.elem == old(arg.elem)
      ensures v == "" ==> status == -1 && arg.Contents() == old(arg.Contents())
      ensures v != "" ==> status == 0 && arg.Contents() == old(arg.Contents()) + [v]
    {
      if |v| == 0 {
        return -1;
      }
      var slot := arg.Push();
      arg.Write(slot, v);
      return 0;
    }

    /** conf_pop_scalar. */
    method PopScalar()
      requires Valid() && arg.nelem != 0
      modifies arg`nelem
      ensures Valid() && arg.Contents() == old(arg.Contents())[..old(arg.nelem) - 1]
    {
      var _ := arg.Pop();
    }

    /** The setter of a command: conf_set_string or conf_set_num, on the pool in the given slot. */
    method SetCommand(key: string, data: nat, value: string) returns (status: int)
      requires Valid() && data < pool.nelem && (IsStringKey(key) || IsNumKey(key))
      requires Set(pool.Contents()[data], key, value) != Err(Undefined)
      modifies pool.elem
      ensures match Set(old(pool.Contents())[data], key, value)
              case Ok(q) => status == 0 && pool.Contents() == old(pool.Contents())[data := q]
              case Err(_) => status == -1 && pool.Contents() == old(pool.Contents())
    {
      var p := pool.Get(data);
      if IsStringKey(key) {
        if StringField(p, key) != "" {
          return -1;
        }
        pool.Write(data, WithString(p, key, value));
      } else {
        if NumField(p, key) != UNSET {
          return -1;
        }
        var num := StrAtoi(value);
        if num < 0 {
          return -1;
        }
        pool.Write(data, WithNum(p, key, num as int));
      }
      return 0;
    }

    /** conf_handler. */
    method Handler(data: nat) returns (status: int)
      requires Valid() && arg.nelem >= 1 && pool.nelem == data + 1
      requires Handle(arg.Contents(), pool.Contents()) != Err(Undefined)
      modifies pool.elem
      ensures match Handle(old(arg.Contents()), old(pool.Contents()))
              case Ok(pools) => status == 0 && pool.Contents() == pools
              case Err(_) => status == -1
    {
      hide Set;
      if arg.nelem == 1 {
        var name := arg.Top();
        var p := pool.Get(data);
        pool.Write(data, InitPool(p, name));
        return 0;
      }
      var value := arg.Get(arg.nelem - 1);
      var key := arg.Get(arg.nelem - 2);
      if IsStringKey(key) || IsNumKey(key) {
        status := SetCommand(key, data, value);
      } else {
        UnknownKey(pool.Contents()[data], key, value);
        status := 0;
      }
    }

    lemma UnknownKey(p: Pool, key: string, value: string)
      requires !IsStringKey(key) && !IsNumKey(key)
      ensures Set(p, key, value) == Ok(p)
    {
    }

    /** The frame of everything below: the two arrays may change, and the pools may move. */
    twostate predicate SameArrays()
      reads this, arg, pool
    {
      arg.elem == old(arg.elem) && (pool.elem == old(pool.elem) || fresh(pool.elem))
    }

    /** A leaf: the handler runs, and whatever it says, the value leaves the stack, and outside a
        sequence the key as well. */
    method LeafAction(data: nat) returns (status: int)
      requires Valid() && pool.nelem == data + 1
      requires Leaf(State()) != Fault && Leaf(State()) != Failed(Undefined)
      modifies arg`nelem, pool.elem
      ensures var t := Leaf(old(State()));
              if t.Going? then status == 0 && Valid() && State() == t else t.Failed? && status < 0
    {
      hide Handle;
      ghost var s := State();
      status := Handler(data);
      if Handle(s.arg, s.pools).Ok? {
        LeafPops(s);
      }
      PopScalar();
      if !inSeq && arg.nelem > 0 {
        PopScalar();
      }
    }

    lemma LeafPops(s: State)
      requires s.Going? && s.arg != [] && s.pools != [] && Leaf(s) != Fault && Handle(s.arg, s.pools).Ok?
      ensures s.inSeq || |s.arg| >= 2
    {
    }

    /** A root key: a new pool is begun and named. */
    method BeginPool() returns (status: int, data: nat)
      requires Valid() && arg.nelem >= 1
      requires NewPool(mem, State()) != Failed(Undefined)
      modifies pool, pool.elem
      ensures SameArrays()
      ensures var t := NewPool(mem, old(State()));
              if t.Going? then status == 0 && Valid() && State() == t && pool.nelem == data + 1
              else t.Failed? && status < 0
    {
      hide Handle;
      data := pool.Push();
      pool.Write(data, mem(data));
      assert pool.Contents() == old(pool.Contents()) + [mem(data)];
      status := Handler(data);
    }

    /** The case of a scalar in conf_parse_core, up to and including the call of the handler. */
    method ScalarEvent(v: string, data0: int) returns (status: int, data: int)
      requires Valid() && data0 == pool.nelem - 1
      requires var t := Step(mem, State(), Scalar(v)); t != Fault && t != Failed(Undefined)
      modifies arg, arg.elem, pool, pool.elem
      ensures SameArrays()
      ensures var t := Step(mem, old(State()), Scalar(v));
              if t.Going? then status == 0 && Valid() && State() == t && data == pool.nelem - 1
              else t.Failed? && status < 0
    {
      hide Leaf, NewPool;
      data := data0;
      status := PushScalar(v);
      if status != 0 {
        return;
      }
      if inSeq {
        LeafHasPool(State());
        status := LeafAction(data);
      } else if depth == ROOT_DEPTH {
        status, data := BeginPool();
      } else if arg.nelem == depth + 1 {
        LeafHasPool(State());
        status := LeafAction(data);
      }
    }

    lemma LeafHasPool(s: State)
      requires s.Going? && Leaf(s) != Fault
      ensures s.pools != []
    {
    }

    /** One event of conf_parse_core: done at the end of the root mapping, a negative status on an error. */
    method HandleEvent(e: Event, data0: int) returns (status: int, done: bool, data: int)
      requires Valid() && data0 == pool.nelem - 1
      requires var t := Step(mem, State(), e); t != Fault && t != Failed(Undefined)
      modifies `depth, `inSeq, arg, arg.elem, pool, pool.elem
      ensures SameArrays()
      ensures match Step(mem, old(State()), e)
              case Going(d, q, a, p) =>
                status == 0 && !done && Valid() && State() == Going(d, q, a, p) && data == pool.nelem - 1
              case Done(pools) =>
                status == 0 && done && Valid() && depth == 0 && arg.nelem == 0 && pool.Contents() == pools
              case Failed(_) => status < 0
              case Fault => false
    {
      hide Leaf, NewPool;
      status, done, data := 0, false, data0;
      match e {
        case MappingEnd =>
          depth := depth - 1;
          if depth == 1 {
            PopScalar();
          } else if depth == 0 {
            done := true;
          }
        case MappingStart =>
          depth := depth + 1;
        case SequenceStart =>
          inSeq := true;
        case SequenceEnd =>
          PopScalar();
          inSeq := false;
        case Scalar(v) =>
          status, data := ScalarEvent(v, data0);
        case _ =>
          assert false;
      }
    }

    /** conf_parse_core, which calls itself for the next event until the root mapping ends, `stop`
        events from the start. */
    method ParseCore(data0: int, ghost stop: nat) returns (status: int)
      requires Valid() && data0 == pool.nelem - 1 && next <= stop <= |events|
      requires Ends(mem, State(), events[next..stop])
      modifies this, arg, arg.elem, pool, pool.elem
      ensures SameArrays()
      ensures match Run(mem, old(State()), events[old(next)..stop])
              case Done(pools) =>
                status == 0 && Valid() && next == stop && depth == 0 && arg.nelem == 0 && pool.Contents() == pools
              case _ => status < 0
      decreases stop - next
    {
      hide Step;
      RunUnrolled(State(), next, stop);
      var e := events[next];
      next := next + 1;
      var done, data;
      status, done, data := HandleEvent(e, data0);
      if status != 0 {
        return;
      }
      if done {
        return;
      }
      status := ParseCore(data, stop);
    }

    lemma RunUnrolled(s: State, from: nat, stop: nat)
      requires from <= stop <= |events| && s.Going? && Ends(mem, s, events[from..stop])
      ensures from < stop
      ensures var t := Step(mem, s, events[from]);
              && t != Fault && t != Failed(Undefined)
              && Run(mem, s, events[from..stop]) == Run(mem, t, events[from + 1..stop])
              && (t.Going? ==> Ends(mem, t, events[from + 1..stop]))
              && (t.Done? ==> from + 1 == stop && Run(mem, s, events[from..stop]) == t)
              && (t.Failed? ==> Run(mem, s, events[from..stop]) == t)
    {
      hide Step;
      var t := Step(mem, s, events[from]);
      assert events[from..stop][1..] == events[from + 1..stop];
      if !t.Going? {
        RunStopped(mem, t, events[from + 1..stop]);
      }
    }

    /** conf_begin_parse: up to the opening of the root mapping. */
    method BeginParse() returns (status: int)
      requires next == 0 && depth == 0
      requires |events| >= 3 && events[..3] == [StreamStart, DocumentStart, MappingStart]
      modifies `next, `depth
      ensures status == 0 && next == 3 && depth == 1
    {
      var done := false;
      while !done
        invariant next <= 3 && (done <==> next == 3) && depth == (if done then 1 else 0)
        decreases 3 - next
      {
        var e := events[next];
        assert e == events[..3][next];
        next := next + 1;
        match e {
          case StreamStart | DocumentStart =>
          case MappingStart =>
            depth := depth + 1;
            done := true;
          case _ =>
            assert false;
        }
      }
      status := 0;
    }

    /** conf_end_parse: up to the end of the stream. */
    method EndParse() returns (status: int)
      requires next + 2 == |events| && events[next] == DocumentEnd && events[next + 1] == StreamEnd
      modifies `next
      ensures status == 0 && next == |events|
    {
      var done := false;
      while !done
        invariant |events| - 2 <= next <= |events| && (done <==> next == |events|)
        decreases |events| - next
      {
        var e := events[next];
        next := next + 1;
        match e {
          case DocumentEnd =>
          case StreamEnd =>
            done := true;
          case _ =>
            assert false;
        }
      }
      status := 0;
    }

    /** conf_parse on the whole stream of a two-level document whose numbers fit: it succeeds exactly
        if the direct reading of the tree does, and then it has built the pools of that reading, read
        all events, and left nothing on the stack, which never grew beyond its three slots. */
    method Parse(ghost root: Node) returns (status: int)
      requires Valid() && State() == Going(0, false, [], []) && next == 0
      requires events == Stream(root) && root.MappingNode? && AllTwoLevel(root.pairs)
      requires FoldRoot(mem, root.pairs, []) != Err(Undefined)
      modifies this, arg, arg.elem, pool, pool.elem
      ensures SameArrays()
      ensures match FoldRoot(mem, root.pairs, [])
              case Ok(pools) =>
                status == 0 && Valid() && pool.Contents() == pools && arg.nelem == 0 && depth == 0 && next == |events|
              case Err(_) => status < 0
      ensures status == 0 ==>
                arg.nalloc == 3 && pool.nelem == |root.pairs| &&
                forall i | 0 <= i < pool.nelem :: IsReadFrom(pool.Contents()[i], mem(i), root.pairs[i])
    {
      hide FoldRoot, AllTwoLevel, Run, Step, Ends, IsReadFrom;
      ghost var body := Body(root.pairs);
      StreamOfMapping(root);
      BodyEnds(mem, root.pairs);
      ParsesTheTree(mem, root.pairs);
      status := BeginParse();
      assert events[3..3 + |body|] == body;
      status := ParseCore(-1, 3 + |body|);
      if status != 0 {
        return;
      }
      AllRead(root.pairs);
      status := EndParse();
    }

    lemma AllRead(pairs: seq<Pair>)
      requires AllTwoLevel(pairs) && FoldRoot(mem, pairs, []).Ok?
      ensures var pools := FoldRoot(mem, pairs, []).value;
              |pools| == |pairs| && forall i | 0 <= i < |pairs| :: IsReadFrom(pools[i], mem(i), pairs[i])
    {
      hide IsReadFrom;
      var none: seq<Pool> := [];
      FoldRootReads(mem, pairs, none);
      var pools := FoldRoot(mem, pairs, []).value;
      forall i | 0 <= i < |pairs| ensures IsReadFrom(pools[i], mem(i), pairs[i]) {
        assert pools[|none| + i] == pools[i] && mem(|none| + i) == mem(i);
      }
    }

    lemma StreamOfMapping(root: Node)
      requires root.MappingNode?
      ensures Stream(root) == [StreamStart, DocumentStart, MappingStart] + Body(root.pairs) + [DocumentEnd, StreamEnd]
    {
    }
  }
}
