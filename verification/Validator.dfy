/** conf_validate_structure of conf.c: a validator with a depth, three counters and a flag, and the
    grammar it decides. */
module Validator {
  import opened Yaml

  const ROOT_DEPTH := 1
  const MAX_DEPTH := 2

  // ----- the grammar -----

  predicate AllScalars(items: seq<Node>) {
    forall i | 0 <= i < |items| :: items[i].ScalarNode?
  }

  /** A scalar, or a sequence of scalars. */
  predicate IsSetting(p: Pair) {
    p.key.ScalarNode? && (p.value.ScalarNode? || (p.value.SequenceNode? && AllScalars(p.value.items)))
  }

  function SequenceCount(pairs: seq<Pair>): nat {
    if pairs == [] then 0 else (if pairs[0].value.SequenceNode? then 1 else 0) + SequenceCount(pairs[1..])
  }

  /** A pool: scalar keys with scalar values, and exactly one key with a flat sequence of scalars. */
  predicate IsPool(n: Node) {
    n.MappingNode? && (forall i | 0 <= i < |n.pairs| :: IsSetting(n.pairs[i])) && SequenceCount(n.pairs) == 1
  }

  /** The root: a mapping from scalars to pools. */
  predicate Conforms(root: Node) {
    root.MappingNode? &&
    forall i | 0 <= i < |root.pairs| :: root.pairs[i].key.ScalarNode? && IsPool(root.pairs[i].value)
  }

  // ----- the machine -----

  /** While it runs: the depth, count[0..2] and the flag. A fault is an index outside the counters
      or a failed assertion. */
  datatype State =
    | Running(depth: int, c0: nat, c1: nat, c2: nat, inSeq: bool)
    | Rejected
    | Accepted
    | Fault

  function WithCount(s: State, depth: int, n: nat): State
    requires s.Running?
  {
    match depth
    case 0 => s.(c0 := n)
    case 1 => s.(c1 := n)
    case 2 => s.(c2 := n)
    case _ => Fault
  }

  function CountAt(s: State, depth: int): nat
    requires s.Running?
  {
    if depth == 0 then s.c0 else if depth == 1 then s.c1 else s.c2
  }

  function Step(s: State, e: Event): State {
    if !s.Running? then s else
    match e
    case StreamStart | DocumentStart | DocumentEnd => s
    case StreamEnd => Accepted
    case MappingStart =>
      if s.depth == ROOT_DEPTH && s.c1 != 1 then Rejected
      else if s.depth >= MAX_DEPTH then Rejected
      else s.(depth := s.depth + 1)
    case MappingEnd =>
      if s.depth == MAX_DEPTH && !s.inSeq then Rejected
      else WithCount(s.(depth := s.depth - 1, inSeq := s.inSeq && s.depth != MAX_DEPTH), s.depth - 1, 0)
    case SequenceStart =>
      if s.inSeq || s.depth != MAX_DEPTH || s.c2 != 1 then Rejected else s.(inSeq := true)
    case SequenceEnd =>
      if s.depth == MAX_DEPTH then s.(c2 := 0) else Fault
    case Scalar(_) =>
      if s.depth == 0 || (s.depth == ROOT_DEPTH && s.c1 != 0) then Rejected
      else if s.depth == MAX_DEPTH && s.c2 == 2 then s.(c2 := 1)
      else WithCount(s, s.depth, CountAt(s, s.depth) + 1)
  }

  function Run(s: State, events: seq<Event>): State
    decreases |events|
  {
    if events == [] then s else Run(Step(s, events[0]), events[1..])
  }

  const INITIAL := Running(0, 0, 0, 0, false)

  lemma {:induction false} RunAppend(s: State, a: seq<Event>, b: seq<Event>)
    ensures Run(s, a + b) == Run(Run(s, a), b)
    decreases |a|
  {
    hide Step;
    if a == [] {
      assert a + b == b;
    } else {
      RunAppend(Step(s, a[0]), a[1..], b);
      assert (a + b)[1..] == a[1..] + b;
    }
  }

  lemma RunOne(s: State, e: Event)
    ensures Run(s, [e]) == Step(s, e)
  {
  }

  /** Once it has stopped, nothing more changes. */
  lemma {:induction false} RunStopped(s: State, events: seq<Event>)
    requires !s.Running?
    ensures Run(s, events) == s
    decreases |events|
  {
    if events != [] {
      RunStopped(s, events[1..]);
    }
  }

  /** A bracketed part: its first event, its inside, its last event. */
  lemma RunBracketed(s: State, open: Event, inside: seq<Event>, close: Event)
    ensures Run(s, [open] + inside + [close]) == Step(Run(Step(s, open), inside), close)
  {
    hide Step;
    RunAppend(s, [open] + inside, [close]);
    RunAppend(s, [open], inside);
    RunOne(s, open);
    RunOne(Run(Step(s, open), inside), close);
  }

  // ----- inside a pool -----

  /** Inside the sequence: scalars keep it running, anything else is rejected. */
  lemma {:induction false} RunItems(items: seq<Node>, c0: nat, c1: nat, c2: nat) returns (k: nat)
    ensures Run(Running(2, c0, c1, c2, true), FlattenItems(items)) ==
            if AllScalars(items) then Running(2, c0, c1, k, true) else Rejected
    decreases |items|
  {
    k := c2;
    if items != [] {
      var s, n := Running(2, c0, c1, c2, true), items[0];
      RunAppend(s, Flatten(n), FlattenItems(items[1..]));
      match n {
        case ScalarNode(v) =>
          RunOne(s, Scalar(v));
          k := RunItems(items[1..], c0, c1, Step(s, Scalar(v)).c2);
          assert AllScalars(items) <==> AllScalars(items[1..]) by {
            assert forall i | 0 < i < |items| :: items[i] == items[1..][i - 1];
          }
        case SequenceNode(inner) =>
          RunBracketed(s, SequenceStart, FlattenItems(inner), SequenceEnd);
          RunStopped(Rejected, FlattenItems(inner));
          RunStopped(Rejected, FlattenItems(items[1..]));
        case MappingNode(inner) =>
          RunBracketed(s, MappingStart, FlattenPairs(inner), MappingEnd);
          RunStopped(Rejected, FlattenPairs(inner));
          RunStopped(Rejected, FlattenItems(items[1..]));
      }
    }
  }

  /** A key of a pool must be a scalar. The counter stands at 0 or 2 in front of it. */
  lemma RunPoolKey(n: Node, c0: nat, c1: nat, c2: nat, inSeq: bool)
    requires c2 == 0 || c2 == 2
    ensures Run(Running(2, c0, c1, c2, inSeq), Flatten(n)) ==
            if n.ScalarNode? then Running(2, c0, c1, 1, inSeq) else Rejected
  {
    var s := Running(2, c0, c1, c2, inSeq);
    match n
    case ScalarNode(v) => RunOne(s, Scalar(v));
    case SequenceNode(inner) =>
      RunBracketed(s, SequenceStart, FlattenItems(inner), SequenceEnd);
      RunStopped(Rejected, FlattenItems(inner));
    case MappingNode(inner) =>
      RunBracketed(s, MappingStart, FlattenPairs(inner), MappingEnd);
      RunStopped(Rejected, FlattenPairs(inner));
  }

  /** A value of a pool: a scalar leaves the counter at 2, the one sequence leaves it at 0. */
  lemma RunPoolValue(n: Node, c0: nat, c1: nat, inSeq: bool)
    ensures Run(Running(2, c0, c1, 1, inSeq), Flatten(n)) ==
            match n
            case ScalarNode(_) => Running(2, c0, c1, 2, inSeq)
            case SequenceNode(items) => if !inSeq && AllScalars(items) then Running(2, c0, c1, 0, true) else Rejected
            case MappingNode(_) => Rejected
  {
    var s := Running(2, c0, c1, 1, inSeq);
    match n
    case ScalarNode(v) => RunOne(s, Scalar(v));
    case SequenceNode(inner) =>
      RunBracketed(s, SequenceStart, FlattenItems(inner), SequenceEnd);
      if inSeq {
        RunStopped(Rejected, FlattenItems(inner));
      } else {
        var _ := RunItems(inner, c0, c1, 1);
      }
    case MappingNode(inner) =>
      RunBracketed(s, MappingStart, FlattenPairs(inner), MappingEnd);
      RunStopped(Rejected, FlattenPairs(inner));
  }

  predicate AllSettings(pairs: seq<Pair>) {
    forall i | 0 <= i < |pairs| :: IsSetting(pairs[i])
  }

  /** The settings of a pool, whichever of 0 and 2 the counter was left at by the pool before. */
  lemma {:induction false} RunPoolPairs(pairs: seq<Pair>, c0: nat, c1: nat, c2: nat, inSeq: bool) returns (k: nat)
    requires c2 == 0 || c2 == 2
    ensures k == 0 || k == 2
    ensures Run(Running(2, c0, c1, c2, inSeq), FlattenPairs(pairs)) ==
            if AllSettings(pairs) && SequenceCount(pairs) <= (if inSeq then 0 else 1)
            then Running(2, c0, c1, k, inSeq || SequenceCount(pairs) == 1)
            else Rejected
    decreases |pairs|
  {
    hide Step;
    k := c2;
    if pairs != [] {
      var s, p, rest := Running(2, c0, c1, c2, inSeq), pairs[0], FlattenPairs(pairs[1..]);
      RunAppend(s, Flatten(p.key) + Flatten(p.value), rest);
      RunAppend(s, Flatten(p.key), Flatten(p.value));
      RunPoolKey(p.key, c0, c1, c2, inSeq);
      RunPoolValue(p.value, c0, c1, inSeq);
      RunStopped(Rejected, Flatten(p.value));
      RunStopped(Rejected, rest);
      assert AllSettings(pairs) <==> IsSetting(p) && AllSettings(pairs[1..]) by {
        assert forall i | 0 < i < |pairs| :: pairs[i] == pairs[1..][i - 1];
      }
      if p.key.ScalarNode? && p.value.ScalarNode? {
        k := RunPoolPairs(pairs[1..], c0, c1, 2, inSeq);
      } else if IsSetting(p) && !inSeq {
        k := RunPoolPairs(pairs[1..], c0, c1, 0, true);
      }
    }
  }

  // ----- at the root -----

  /** The value of a root key must be a pool. */
  lemma RunPool(n: Node, c0: nat, c2: nat) returns (k: nat)
    requires c2 == 0 || c2 == 2
    ensures k == 0 || k == 2
    ensures Run(Running(1, c0, 1, c2, false), Flatten(n)) ==
            if IsPool(n) then Running(1, c0, 0, k, false) else Rejected
  {
    k := c2;
    var s := Running(1, c0, 1, c2, false);
    match n
    case ScalarNode(v) => RunOne(s, Scalar(v));
    case SequenceNode(inner) =>
      RunBracketed(s, SequenceStart, FlattenItems(inner), SequenceEnd);
      RunStopped(Rejected, FlattenItems(inner));
    case MappingNode(inner) =>
      RunBracketed(s, MappingStart, FlattenPairs(inner), MappingEnd);
      k := RunPoolPairs(inner, c0, 1, c2, false);
  }

  /** A root key must be a scalar. */
  lemma RunRootKey(n: Node, c0: nat, c2: nat)
    ensures Run(Running(1, c0, 0, c2, false), Flatten(n)) ==
            if n.ScalarNode? then Running(1, c0, 1, c2, false) else Rejected
  {
    var s := Running(1, c0, 0, c2, false);
    match n
    case ScalarNode(v) => RunOne(s, Scalar(v));
    case SequenceNode(inner) =>
      RunBracketed(s, SequenceStart, FlattenItems(inner), SequenceEnd);
      RunStopped(Rejected, FlattenItems(inner));
    case MappingNode(inner) =>
      RunBracketed(s, MappingStart, FlattenPairs(inner), MappingEnd);
      RunStopped(Rejected, FlattenPairs(inner));
  }

  predicate IsRootPair(p: Pair) {
    p.key.ScalarNode? && IsPool(p.value)
  }

  predicate AllRootPairs(pairs: seq<Pair>) {
    forall i | 0 <= i < |pairs| :: IsRootPair(pairs[i])
  }

  lemma {:induction false} RunRootPairs(pairs: seq<Pair>, c0: nat, c2: nat) returns (k: nat)
    requires c2 == 0 || c2 == 2
    ensures k == 0 || k == 2
    ensures Run(Running(1, c0, 0, c2, false), FlattenPairs(pairs)) ==
            if AllRootPairs(pairs) then Running(1, c0, 0, k, false) else Rejected
    decreases |pairs|
  {
    hide Step, IsPool;
    k := c2;
    if pairs != [] {
      var s, p, rest := Running(1, c0, 0, c2, false), pairs[0], FlattenPairs(pairs[1..]);
      RunAppend(s, Flatten(p.key) + Flatten(p.value), rest);
      RunAppend(s, Flatten(p.key), Flatten(p.value));
      RunRootKey(p.key, c0, c2);
      var j := RunPool(p.value, c0, c2);
      RunStopped(Rejected, Flatten(p.value));
      RunStopped(Rejected, rest);
      assert AllRootPairs(pairs) <==> IsRootPair(p) && AllRootPairs(pairs[1..]) by {
        assert forall i | 0 < i < |pairs| :: pairs[i] == pairs[1..][i - 1];
      }
      if IsRootPair(p) {
        k := RunRootPairs(pairs[1..], c0, j);
      }
    }
  }

  lemma RunRoot(root: Node)
    ensures Run(INITIAL, Flatten(root)) == Rejected ||
            (Run(INITIAL, Flatten(root)).Running? && Conforms(root))
    ensures Conforms(root) ==> Run(INITIAL, Flatten(root)).Running?
  {
    match root
    case ScalarNode(v) => RunOne(INITIAL, Scalar(v));
    case SequenceNode(inner) =>
      RunBracketed(INITIAL, SequenceStart, FlattenItems(inner), SequenceEnd);
      RunStopped(Rejected, FlattenItems(inner));
    case MappingNode(inner) =>
      hide IsPool;
      RunBracketed(INITIAL, MappingStart, FlattenPairs(inner), MappingEnd);
      var _ := RunRootPairs(inner, 0, 0);
      assert Conforms(root) <==> AllRootPairs(inner) by {
        assert forall i | 0 <= i < |inner| ::
            IsRootPair(inner[i]) <==> inner[i].key.ScalarNode? && IsPool(inner[i].value);
      }
  }

  /** On the stream of any document the machine accepts exactly the grammar, and it never faults. */
  lemma DecidesGrammar(root: Node)
    ensures Run(INITIAL, Stream(root)) == if Conforms(root) then Accepted else Rejected
  {
    hide Conforms;
    var body := Flatten(root);
    RunAppend(INITIAL, [StreamStart, DocumentStart] + body, [DocumentEnd, StreamEnd]);
    RunAppend(INITIAL, [StreamStart, DocumentStart], body);
    assert Run(INITIAL, [StreamStart, DocumentStart]) == INITIAL by {
      RunAppend(INITIAL, [StreamStart], [DocumentStart]);
      RunOne(INITIAL, StreamStart);
      RunOne(INITIAL, DocumentStart);
      assert [StreamStart, DocumentStart] == [StreamStart] + [DocumentStart];
    }
    RunRoot(root);
    var s := Run(INITIAL, body);
    RunAppend(s, [DocumentEnd], [StreamEnd]);
    RunOne(s, DocumentEnd);
    RunOne(s, StreamEnd);
    assert [DocumentEnd, StreamEnd] == [DocumentEnd] + [StreamEnd];
  }

  // ----- the function itself -----

  /** What holds of the variables of the loop when the machine is in state s. */
  predicate Shows(s: State, depth: int, count: seq<nat>, inSeq: bool, done: bool, error: bool) {
    |count| == 3 &&
    match s
    case Running(d, c0, c1, c2, q) => !done && !error && depth == d && count == [c0, c1, c2] && inSeq == q
    case Rejected => error && !done
    case Accepted => done && !error
    case Fault => false
  }

  lemma FaultIsFinal(s: State, before: seq<Event>, e: Event, after: seq<Event>)
    requires Run(s, before + [e] + after) != Fault
    ensures Step(Run(s, before), e) != Fault
  {
    RunAppend(s, before + [e], after);
    RunAppend(s, before, [e]);
    RunOne(Run(s, before), e);
    if Step(Run(s, before), e) == Fault {
      RunStopped(Fault, after);
    }
  }

  /** conf_validate_structure on the events of a document: 0 if the document conforms, -1 if not.
      No counter outside count[0..2] is ever touched, and the loop ends before the events do. */
  method ValidateStructure(events: seq<Event>, ghost root: Node) returns (status: int)
    requires events == Stream(root)
    ensures status == if Conforms(root) then 0 else -1
  {
    hide Conforms, Stream, Run;
    var count := new nat[3](_ => 0);
    var done, error, inSeq, depth := false, false, false, 0;
    var next := 0;
    ghost var s := INITIAL;
    DecidesGrammar(root);
    RunNothing(INITIAL);
    assert events[..0] == [];
    while !done && !error
      invariant 0 <= next <= |events|
      invariant s == Run(INITIAL, events[..next]) && Shows(s, depth, count[..], inSeq, done, error)
      decreases |events| - next
    {
      RunWhole(events, next);
      var e := events[next];
      assert events == events[..next] + [e] + events[next + 1..];
      FaultIsFinal(INITIAL, events[..next], e, events[next + 1..]);
      RunAppend(INITIAL, events[..next], [e]);
      RunOne(s, e);
      assert events[..next + 1] == events[..next] + [e];
      depth, inSeq, done, error := HandleEvent(e, depth, count, inSeq, s);
      s := Step(s, e);
      next := next + 1;
    }
    RunAppend(INITIAL, events[..next], events[next..]);
    assert events == events[..next] + events[next..];
    RunStopped(s, events[next..]);
    status := if !error then 0 else -1;
  }

  lemma RunWhole(events: seq<Event>, next: nat)
    requires next <= |events|
    ensures next == |events| ==> Run(INITIAL, events[..next]) == Run(INITIAL, events)
  {
    if next == |events| {
      assert events[..next] == events;
    }
  }

  lemma RunNothing(s: State)
    ensures Run(s, []) == s
  {
  }

  /** The switch on one event. */
  method HandleEvent(e: Event, depth0: int, count: array<nat>, inSeq0: bool, ghost s: State)
    returns (depth: int, inSeq: bool, done: bool, error: bool)
    requires s.Running? && Shows(s, depth0, count[..], inSeq0, false, false) && Step(s, e) != Fault
    modifies count
    ensures Shows(Step(s, e), depth, count[..], inSeq, done, error)
  {
    depth, inSeq, done, error := depth0, inSeq0, false, false;
    match e {
      case StreamStart | DocumentStart =>
      case DocumentEnd =>
      case StreamEnd =>
        done := true;
      case MappingStart =>
        if depth == ROOT_DEPTH && count[depth] != 1 {
          error := true;
        } else if depth >= MAX_DEPTH {
          error := true;
        }
        depth := depth + 1;
      case MappingEnd =>
        if depth == MAX_DEPTH {
          if inSeq {
            inSeq := false;
          } else {
            error := true;
          }
        }
        depth := depth - 1;
        count[depth] := 0;
      case SequenceStart =>
        if inSeq {
          error := true;
        } else if depth != MAX_DEPTH {
          error := true;
        } else if count[depth] != 1 {
          error := true;
        }
        inSeq := true;
      case SequenceEnd =>
        assert depth == MAX_DEPTH;
        count[depth] := 0;
      case Scalar(_) =>
        if depth == 0 {
          error := true;
        } else if depth == ROOT_DEPTH && count[depth] != 0 {
          error := true;
        } else if depth == MAX_DEPTH && count[depth] == 2 {
          count[depth] := 0;
        }
        count[depth] := count[depth] + 1;
    }
  }
}
