/** YAML documents as trees, and the event streams a parser makes of them. */
module Yaml {
  datatype Node =
    | ScalarNode(value: string)
    | SequenceNode(items: seq<Node>)
    | MappingNode(pairs: seq<Pair>)

  datatype Pair = Pair(key: Node, value: Node)

  datatype Event =
    | StreamStart
    | DocumentStart
    | DocumentEnd
    | StreamEnd
    | MappingStart
    | MappingEnd
    | SequenceStart
    | SequenceEnd
    | Scalar(value: string)

  function Flatten(n: Node): seq<Event>
    decreases n, 0
  {
    match n
    case ScalarNode(value) => [Scalar(value)]
    case SequenceNode(items) => [SequenceStart] + FlattenItems(items) + [SequenceEnd]
    case MappingNode(pairs) => [MappingStart] + FlattenPairs(pairs) + [MappingEnd]
  }

  function FlattenItems(items: seq<Node>): seq<Event>
    decreases items, 0
  {
    if items == [] then [] else Flatten(items[0]) + FlattenItems(items[1..])
  }

  function FlattenPairs(pairs: seq<Pair>): seq<Event>
    decreases pairs, 0
  {
    if pairs == [] then [] else FlattenPair(pairs[0]) + FlattenPairs(pairs[1..])
  }

  function FlattenPair(p: Pair): seq<Event>
    decreases p, 0
  {
    Flatten(p.key) + Flatten(p.value)
  }

  /** The whole stream of a single document. */
  function Stream(root: Node): seq<Event> {
    [StreamStart, DocumentStart] + Flatten(root) + [DocumentEnd, StreamEnd]
  }
}
