/** The shared `state` object of script.js with its event handlers. Each handler
    updates the fields in place and is proved to perform exactly the update of
    the matching `Interaction` function; the renderers that walk the links are
    loops proved against their `Projections` functions. */
module Explorer {
  import opened Graph
  import opened Placement
  import opened Projections
  import opened Interaction
  import InteractionProps

  class ExplorerState {
    var scale: real
    var offsetX: real
    var offsetY: real
    var isPanning: bool
    var panStartX: real
    var panStartY: real
    var panOriginX: real
    var panOriginY: real
    var draggingNodeId: Option<string>
    var dragNodeStart: Point
    var dragPointerStart: Point
    var selectedNodeId: Option<string>
    var linkMode: Option<LinkMode>
    var bubbles: seq<Bubble>
    var nodes: seq<Node>
    var links: seq<Link>

    /** The whole state as a value. */
    function Snapshot(): AppState
      reads this
    {
      AppState(scale, offsetX, offsetY, isPanning, panStartX, panStartY, panOriginX, panOriginY,
               draggingNodeId, dragNodeStart, dragPointerStart, selectedNodeId, linkMode,
               bubbles, nodes, links)
    }

    /** The scale stays in [0.3, 2.5]. */
    ghost predicate Valid()
      reads this
    {
      ScaleInRange(Snapshot())
    }

    /** The state literal followed by `loadInitialData` and the selection of the
        first node. */
    constructor (initialBubbles: seq<Bubble>, rawNodes: seq<RawNode>, initialLinks: seq<Link>)
      ensures Valid()
      ensures Snapshot() == Initial(initialBubbles, rawNodes, initialLinks)
    {
      scale, offsetX, offsetY := InitialScale, 0.0, 0.0;
      isPanning := false;
      panStartX, panStartY, panOriginX, panOriginY := 0.0, 0.0, 0.0, 0.0;
      draggingNodeId := None;
      dragNodeStart, dragPointerStart := Point(0.0, 0.0), Point(0.0, 0.0);
      selectedNodeId, linkMode := None, None;
      bubbles := initialBubbles;
      nodes := PlaceNodes(rawNodes);
      links := initialLinks;
      new;
      if |nodes| > 0 && FindNode(nodes, nodes[0].id).Some? {
        selectedNodeId := Some(nodes[0].id);
      }
    }

    /** Wheel zoom about the pointer `(cx, cy)`, measured from the canvas centre. */
    method Wheel(deltaY: real, cx: real, cy: real)
      requires Valid()
      modifies this
      ensures Valid()
      ensures Snapshot() == Interaction.Wheel(old(Snapshot()), deltaY, cx, cy)
      ensures (cx - offsetX) / scale == (cx - old(offsetX)) / old(scale)
      ensures (cy - offsetY) / scale == (cy - old(offsetY)) / old(scale)
    {
      InteractionProps.WheelKeepsPointUnderCursor(Snapshot(), deltaY, cx, cy);
      var zoomFactor := if deltaY > 0.0 then ZoomOutFactor else ZoomInFactor;
      var newScale := Min(MaxScale, Max(MinScale, scale * zoomFactor));
      offsetX := cx + (offsetX - cx) * (newScale / scale);
      offsetY := cy + (offsetY - cy) * (newScale / scale);
      scale := newScale;
    }

    /** Canvas mousedown; `onNode` says whether the press landed on a node card. */
    method CanvasMouseDown(onNode: bool, clientX: real, clientY: real)
      requires Valid()
      modifies this
      ensures Valid()
      ensures Snapshot() == Interaction.CanvasMouseDown(old(Snapshot()), onNode, clientX, clientY)
    {
      if onNode { return; }
      isPanning := true;
      panStartX, panStartY := clientX, clientY;
      panOriginX, panOriginY := offsetX, offsetY;
    }

    /** `onNodeMouseDown`. */
    method NodeMouseDown(nodeId: string, clientX: real, clientY: real)
      requires Valid()
      modifies this
      ensures Valid()
      ensures Snapshot() == Interaction.NodeMouseDown(old(Snapshot()), nodeId, clientX, clientY)
    {
      draggingNodeId := Some(nodeId);
      var found := FindNode(nodes, nodeId);
      if found.None? { return; }
      dragNodeStart := Point(found.value.x, found.value.y);
      dragPointerStart := Point(clientX, clientY);
    }

    /** Window mousemove. */
    method MouseMove(clientX: real, clientY: real)
      requires Valid()
      modifies this
      ensures Valid()
      ensures Snapshot() == Interaction.MouseMove(old(Snapshot()), clientX, clientY)
    {
      if isPanning {
        offsetX := panOriginX + (clientX - panStartX);
        offsetY := panOriginY + (clientY - panStartY);
      }
      if draggingNodeId.Some? && draggingNodeId.value != "" {
        var found := FindIndex(nodes, draggingNodeId.value);
        if found.None? { return; }
        var i := found.value;
        var dx := (clientX - dragPointerStart.x) / scale;
        var dy := (clientY - dragPointerStart.y) / scale;
        nodes := nodes[i := nodes[i].(x := dragNodeStart.x + dx, y := dragNodeStart.y + dy)];
      }
    }

    /** Window mouseup. */
    method MouseUp()
      requires Valid()
      modifies this
      ensures Valid()
      ensures Snapshot() == Interaction.MouseUp(old(Snapshot()))
      ensures !isPanning && draggingNodeId.None?
    {
      isPanning := false;
      draggingNodeId := None;
    }

    /** Keyboard pan. */
    method KeyDown(key: string)
      requires Valid()
      modifies this
      ensures Valid()
      ensures Snapshot() == Interaction.KeyDown(old(Snapshot()), key)
    {
      if key == "ArrowUp" || key == "w" || key == "W" {
        offsetY := offsetY + KeyStep;
      }
      if key == "ArrowDown" || key == "s" || key == "S" {
        offsetY := offsetY - KeyStep;
      }
      if key == "ArrowLeft" || key == "a" || key == "A" {
        offsetX := offsetX + KeyStep;
      }
      if key == "ArrowRight" || key == "d" || key == "D" {
        offsetX := offsetX - KeyStep;
      }
    }

    /** Context menu "start link". */
    method StartLink(nodeId: string)
      requires Valid()
      modifies this
      ensures Valid()
      ensures Snapshot() == Interaction.StartLink(old(Snapshot()), nodeId)
    {
      linkMode := Some(LinkMode(nodeId, SupportingLink));
    }

    /** Context menu "cancel link". */
    method CancelLink()
      requires Valid()
      modifies this
      ensures Valid()
      ensures Snapshot() == Interaction.CancelLink(old(Snapshot()))
    {
      linkMode := None;
    }

    /** `selectNode`: returns what the detail panel shows, `None` when the
        id does not resolve (the panel is left as it was). */
    method SelectNode(nodeId: string) returns (detail: Option<Detail>)
      requires Valid()
      modifies this
      ensures Valid()
      ensures Snapshot() == Interaction.SelectNode(old(Snapshot()), nodeId)
      ensures detail == DetailPanel(nodes, links, nodeId)
    {
      var found := FindNode(nodes, nodeId);
      if found.None? { return None; }
      selectedNodeId := Some(nodeId);
      detail := DetailPanel(nodes, links, nodeId);
    }

    /** The canvas-inner click listener. When a link was added and a node is
        selected, `refreshed` is the detail panel shown again for it. */
    method CanvasInnerClick(clicked: Option<string>, prompt: Option<string>) returns (refreshed: Option<Detail>)
      requires Valid()
      modifies this
      ensures Valid()
      ensures Snapshot() == Interaction.CompleteLink(old(Snapshot()), clicked, prompt)
      ensures refreshed == (if |links| == |old(links)| + 1 && old(selectedNodeId).Some? && old(selectedNodeId).value != ""
                            then DetailPanel(nodes, links, old(selectedNodeId).value) else None)
    {
      refreshed := None;
      if linkMode.None? || clicked.None? { return; }
      var toId := clicked.value;
      if toId == "" || toId == linkMode.value.fromId { return; }
      var finalLabel := ChooseLabel(prompt, FindNode(nodes, toId));
      if finalLabel.None? { return; }
      links := links + [Link(linkMode.value.fromId, toId, finalLabel.value)];
      linkMode := None;
      if selectedNodeId.Some? && selectedNodeId.value != "" {
        refreshed := SelectNode(selectedNodeId.value);
      }
    }

    /** A click on a node card, dispatched to the card's listener and then to
        the canvas-inner listener (the corrected dispatch). */
    method NodeClick(nodeId: string, prompt: Option<string>)
      requires Valid()
      modifies this
      ensures Valid()
      ensures Snapshot() == Interaction.NodeClick(old(Snapshot()), nodeId, prompt)
    {
      var _ := SelectNode(nodeId);
      var _ := CanvasInnerClick(Some(nodeId), prompt);
    }

    /** `scrollNodeIntoView`. */
    method ScrollNodeIntoView(nodeId: string)
      requires Valid()
      modifies this
      ensures Valid()
      ensures Snapshot() == Interaction.ScrollNodeIntoView(old(Snapshot()), nodeId)
    {
      var found := FindNode(nodes, nodeId);
      if found.None? { return; }
      offsetX := -found.value.x;
      offsetY := -found.value.y;
    }

    /** A click on a "Linked nodes" entry. */
    method HyperlinkClick(nodeId: string)
      requires Valid()
      modifies this
      ensures Valid()
      ensures Snapshot() == Interaction.HyperlinkClick(old(Snapshot()), nodeId)
    {
      var _ := SelectNode(nodeId);
      ScrollNodeIntoView(nodeId);
    }

    /** `rebuildLinks`: the lines of the link layer, one per link whose ends
        resolve, in link order. */
    method RebuildLinks() returns (lines: seq<Line>)
      ensures lines == LinkLines(nodes, links)
      ensures |lines| == |ResolvedLinks(nodes, links)| <= |links|
    {
      lines := [];
      var i := 0;
      while i < |links|
        invariant 0 <= i <= |links|
        invariant lines == LinkLines(nodes, links[..i])
      {
        var link := links[i];
        assert links[..i + 1][..i] == links[..i];
        var fromNode := FindNode(nodes, link.from);
        var toNode := FindNode(nodes, link.to);
        if fromNode.Some? && toNode.Some? {
          var x1 := fromNode.value.x + AnchorDX;
          var y1 := fromNode.value.y + AnchorDY;
          var x2 := toNode.value.x + AnchorDX;
          var y2 := toNode.value.y + AnchorDY;
          lines := lines + [Line(fromNode.value.id, toNode.value.id, x1, y1, x2, y2)];
        }
        i := i + 1;
      }
      assert links[..i] == links;
      LinkLinesFollowResolved(nodes, links);
      ResolvedLinksBound(nodes, links);
    }

    /** The link section of `buildTextMap`: one sentence per link whose ends
        resolve, in link order. */
    method LinkSentencesOfTextMap() returns (sentences: seq<string>)
      ensures sentences == LinkSentences(nodes, links)
    {
      sentences := [];
      var i := 0;
      while i < |links|
        invariant 0 <= i <= |links|
        invariant sentences == LinkSentences(nodes, links[..i])
      {
        var link := links[i];
        assert links[..i + 1][..i] == links[..i];
        var fromNode := FindNode(nodes, link.from);
        var toNode := FindNode(nodes, link.to);
        if fromNode.Some? && toNode.Some? {
          sentences := sentences + [fromNode.value.title + SentenceArrow + toNode.value.title + " (" + link.caption + ")."];
        }
        i := i + 1;
      }
      assert links[..i] == links;
    }
  }
}
