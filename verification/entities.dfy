/** The persisted records of the story service: stories and their nodes. */
module Entities {
  import opened Wrappers

  /**
   * One turn's stored output. `tokenStart`/`tokenEnd` are word-count
   * addresses, not model tokens; `parentNodeId` is absent on the genesis
   * node.
   */
  datatype Node = Node(
    id: string,
    parentNodeId: Option<string>,
    actionType: string,
    userInput: string,
    generatedText: string,
    tokenStart: int,
    tokenEnd: int)

  /** A story with its nodes in creation order (the `nodes` relation). */
  datatype Story = Story(
    id: string,
    userId: string,
    genre: string,
    protagonist: string,
    matureEnabled: bool,
    nodes: seq<Node>)

  /** The stories table, keyed by story id. */
  type Store = map<string, Story>

  /** The inclusive address range of `n` contains `t`. */
  predicate Covers(n: Node, t: int) {
    n.tokenStart <= t <= n.tokenEnd
  }

  /** The `generatedText` of each node, in order. */
  function Texts(nodes: seq<Node>): (r: seq<string>)
    ensures |r| == |nodes|
    ensures forall i :: 0 <= i < |nodes| ==> r[i] == nodes[i].generatedText
  {
    seq(|nodes|, i requires 0 <= i < |nodes| => nodes[i].generatedText)
  }
}
