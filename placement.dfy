/** Initial placement of nodes in `loadInitialData`: the i-th loaded node takes
    the i-th entry of a fixed 15-entry table, and later nodes stack on the
    vertical axis 60 units apart. */
module Placement {
  import opened Graph

  /** A node as it arrives in the initial data, without a position. */
  datatype RawNode = RawNode(id: string, title: string, summary: string, contentHtml: string,
                             bubbles: seq<string>)

  /** The `nodePositions` table, indexed by load order. */
  const PositionTable: seq<Point> := [
    Point(-200.0, -420.0), Point(-220.0, -230.0), Point(-900.0, -260.0),
    Point(-40.0, -120.0),  Point(-40.0, 40.0),    Point(480.0, -260.0),
    Point(820.0, -80.0),   Point(40.0, 210.0),    Point(-430.0, 260.0),
    Point(210.0, -10.0),   Point(430.0, 260.0),   Point(820.0, 260.0),
    Point(-1150.0, 260.0), Point(-70.0, 420.0),   Point(80.0, 600.0)
  ]

  /** Vertical spacing of the fallback column. */
  const FallbackStep: real := 60.0

  /** The default position of the node loaded at index `idx`. */
  function DefaultPosition(idx: nat): Point {
    if idx < |PositionTable| then PositionTable[idx] else Point(0.0, idx as real * FallbackStep)
  }

  function Place(n: RawNode, p: Point): Node {
    Node(n.id, n.title, n.summary, n.contentHtml, n.bubbles, p.x, p.y)
  }

  /** The position-free view of a node, the inverse of `Place`. */
  function Strip(n: Node): RawNode {
    RawNode(n.id, n.title, n.summary, n.contentHtml, n.bubbles)
  }

  /** `data.nodes.map((n, idx) => ({...n, x, y}))`. */
  function PlaceNodes(raw: seq<RawNode>): seq<Node> {
    seq(|raw|, i requires 0 <= i < |raw| => Place(raw[i], DefaultPosition(i)))
  }

  function StripAll(nodes: seq<Node>): seq<RawNode> {
    seq(|nodes|, i requires 0 <= i < |nodes| => Strip(nodes[i]))
  }

  /** Placement only adds a position: stripping it gives back the loaded nodes,
      in the same order. */
  lemma PlaceThenStrip(raw: seq<RawNode>)
    ensures |PlaceNodes(raw)| == |raw|
    ensures StripAll(PlaceNodes(raw)) == raw
  {
    assert forall i :: 0 <= i < |raw| ==> Strip(PlaceNodes(raw)[i]) == raw[i];
  }

  /** A node's position depends only on its index: loading more nodes after
      it never moves it. */
  lemma PlacementIsPrefixStable(raw: seq<RawNode>, more: seq<RawNode>)
    ensures PlaceNodes(raw + more)[..|raw|] == PlaceNodes(raw)
  {
    assert forall i :: 0 <= i < |raw| ==> (raw + more)[i] == raw[i];
  }

  /** Nodes beyond the table lie on the vertical axis, at `60 * index`. */
  lemma FallbackColumn(raw: seq<RawNode>, i: nat)
    requires |PositionTable| <= i < |raw|
    ensures PlaceNodes(raw)[i].x == 0.0
    ensures PlaceNodes(raw)[i].y == 60.0 * i as real
  {
  }

  /** No two loaded nodes start at the same position. */
  lemma PlacementIsInjective(raw: seq<RawNode>, i: nat, j: nat)
    requires i < j < |raw|
    ensures Point(PlaceNodes(raw)[i].x, PlaceNodes(raw)[i].y) != Point(PlaceNodes(raw)[j].x, PlaceNodes(raw)[j].y)
  {
    TableIsInjective();
    if i < |PositionTable| {
      assert PositionTable[i].x != 0.0;
    }
  }

  /** The table holds 15 distinct points, none on the vertical axis. */
  lemma TableIsInjective()
    ensures |PositionTable| == 15
    ensures forall i :: 0 <= i < |PositionTable| ==> PositionTable[i].x != 0.0
    ensures forall i, j :: 0 <= i < j < |PositionTable| ==> PositionTable[i] != PositionTable[j]
  {
  }
}
