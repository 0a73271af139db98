/** The records held in the explorer's `state`: bubbles, nodes and links, and the
    lookup by id that every handler and projection uses (`state.nodes.find`). */
module Graph {

  datatype Option<T> = None | Some(value: T)

  /** A world-space coordinate pair, as in `dragNodeStart` and `dragPointerStart`. */
  datatype Point = Point(x: real, y: real)

  /** A circular grouping. The presentation-only `diameter` is not kept. */
  datatype Bubble = Bubble(id: string, title: string, description: string,
                           x: real, y: real, radius: real)

  /** A content card; `bubbles` lists the ids of the bubbles it belongs to
      (a missing list is the empty sequence). */
  datatype Node = Node(id: string, title: string, summary: string, contentHtml: string,
                       bubbles: seq<string>, x: real, y: real)

  /** A directed, labelled edge between two node ids; duplicates are allowed.
      `caption` is the source's `label` field (`label` is a Dafny keyword). */
  datatype Link = Link(from: string, to: string, caption: string)

  /** Some node carries this id. */
  ghost predicate HasNode(nodes: seq<Node>, id: string) {
    exists i :: 0 <= i < |nodes| && nodes[i].id == id
  }

  /** The position of the first node whose id is `id`, as `Array.prototype.find`
      returns the first match. */
  function FindIndex(nodes: seq<Node>, id: string): (r: Option<nat>)
    ensures r.Some? ==> r.value < |nodes| && nodes[r.value].id == id
    ensures r.Some? ==> forall j :: 0 <= j < r.value ==> nodes[j].id != id
    ensures r.None? <==> !HasNode(nodes, id)
  {
    if |nodes| == 0 then None
    else if nodes[0].id == id then Some(0)
    else
      match FindIndex(nodes[1..], id)
      case None => None
      case Some(k) => Some(k + 1)
  }

  /** `state.nodes.find(n => n.id === id)`: the first node with that id, if any. */
  function FindNode(nodes: seq<Node>, id: string): (r: Option<Node>)
    ensures r.Some? <==> HasNode(nodes, id)
    ensures r.Some? ==> r.value in nodes && r.value.id == id
  {
    match FindIndex(nodes, id)
    case None => None
    case Some(i) => Some(nodes[i])
  }

  /** The first match depends only on the ids: moving nodes (changing `x`/`y`)
      never changes which node a lookup finds. */
  lemma {:induction false} FindIndexIgnoresPositions(nodes: seq<Node>, moved: seq<Node>, id: string)
    requires |moved| == |nodes|
    requires forall j :: 0 <= j < |nodes| ==> moved[j].id == nodes[j].id
    ensures FindIndex(moved, id) == FindIndex(nodes, id)
  {
    if |nodes| > 0 && nodes[0].id != id {
      FindIndexIgnoresPositions(nodes[1..], moved[1..], id);
    }
  }
}
