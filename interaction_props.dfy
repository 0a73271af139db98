/** Properties of the interaction handlers: zoom bounds and zoom about the
    pointer, pan and drag tracking, gesture release, keyboard pan, link
    completion, selection, centring, and invariants of whole event runs. */
module InteractionProps {
  import opened Graph
  import opened JsText
  import opened Placement
  import opened Interaction

  // ---------------------------------------------------------------- zoom

  /** After any wheel event the scale lies in [0.3, 2.5], and the wheel changes
      nothing but the view transform. */
  lemma WheelBoundsScale(s: AppState, deltaY: real, cx: real, cy: real)
    requires s.scale > 0.0
    ensures 0.3 <= Wheel(s, deltaY, cx, cy).scale <= 2.5
    ensures Wheel(s, deltaY, cx, cy).(scale := s.scale, offsetX := s.offsetX, offsetY := s.offsetY) == s
  {
  }

  /** Scrolling down (`deltaY > 0`) shrinks the scale by 0.9 down to 0.3;
      otherwise it grows by 1.1 up to 2.5. */
  lemma WheelDirection(s: AppState, deltaY: real, cx: real, cy: real)
    requires ScaleInRange(s)
    ensures deltaY > 0.0 ==> Wheel(s, deltaY, cx, cy).scale <= s.scale
    ensures deltaY > 0.0 && s.scale * 0.9 >= 0.3 ==> Wheel(s, deltaY, cx, cy).scale == s.scale * 0.9
    ensures deltaY <= 0.0 ==> Wheel(s, deltaY, cx, cy).scale >= s.scale
    ensures deltaY <= 0.0 && s.scale * 1.1 <= 2.5 ==> Wheel(s, deltaY, cx, cy).scale == s.scale * 1.1
    ensures deltaY > 0.0 && s.scale * 0.9 < 0.3 ==> Wheel(s, deltaY, cx, cy).scale == 0.3
    ensures deltaY <= 0.0 && s.scale * 1.1 > 2.5 ==> Wheel(s, deltaY, cx, cy).scale == 2.5
  {
  }

  /** One coordinate of zoom about a point: `c + (o - c) * (n / s)` keeps
      `(c - o) / s`. */
  lemma ZoomKeepsCoordinate(c: real, o: real, sc: real, ns: real)
    requires sc > 0.0 && ns > 0.0
    ensures (c - (c + (o - c) * (ns / sc))) / ns == (c - o) / sc
  {
    var k := ns / sc;
    assert k * sc == ns;
    calc {
      (c - (c + (o - c) * k)) / ns;
      ((c - o) * k) / ns;
      ((c - o) * k) / (k * sc);
      (c - o) / sc;
    }
  }

  /** Zoom about the pointer: the world point under `(cx, cy)` is the same
      before and after the wheel. */
  lemma WheelKeepsPointUnderCursor(s: AppState, deltaY: real, cx: real, cy: real)
    requires s.scale > 0.0
    ensures (cx - Wheel(s, deltaY, cx, cy).offsetX) / Wheel(s, deltaY, cx, cy).scale == (cx - s.offsetX) / s.scale
    ensures (cy - Wheel(s, deltaY, cx, cy).offsetY) / Wheel(s, deltaY, cx, cy).scale == (cy - s.offsetY) / s.scale
  {
    var t := Wheel(s, deltaY, cx, cy);
    ZoomKeepsCoordinate(cx, s.offsetX, s.scale, t.scale);
    ZoomKeepsCoordinate(cy, s.offsetY, s.scale, t.scale);
  }

  /** Zooming in and then out at the same point does not restore the scale:
      away from the bounds it drifts to 0.99 of the original. */
  lemma ZoomInThenOutDrifts(s: AppState, cx: real, cy: real)
    requires 0.3 <= s.scale * 0.99 && s.scale * 1.1 <= 2.5
    ensures Wheel(Wheel(s, -1.0, cx, cy), 1.0, cx, cy).scale == 0.99 * s.scale
  {
  }

  // ---------------------------------------------------------------- pan

  /** While panning, the offset is the pan origin plus the pointer's travel
      since the press. */
  lemma PanFollowsPointer(s: AppState, clientX: real, clientY: real)
    requires s.scale > 0.0 && s.isPanning
    ensures MouseMove(s, clientX, clientY).offsetX == s.panOriginX + (clientX - s.panStartX)
    ensures MouseMove(s, clientX, clientY).offsetY == s.panOriginY + (clientY - s.panStartY)
  {
  }

  /** Pressing on empty canvas and moving back to the press point restores the
      offset the view had before the press. */
  lemma PanBackToStartRestoresOffset(s: AppState, clientX: real, clientY: real)
    requires s.scale > 0.0
    ensures MouseMove(CanvasMouseDown(s, false, clientX, clientY), clientX, clientY).offsetX == s.offsetX
    ensures MouseMove(CanvasMouseDown(s, false, clientX, clientY), clientX, clientY).offsetY == s.offsetY
  {
  }

  /** A mousedown that lands on a node never starts a pan. */
  lemma PressOnNodeDoesNotPan(s: AppState, clientX: real, clientY: real)
    ensures CanvasMouseDown(s, true, clientX, clientY) == s
  {
  }

  /** Mouseup always ends both gestures and touches nothing else. */
  lemma MouseUpEndsGestures(s: AppState)
    ensures !MouseUp(s).isPanning && MouseUp(s).draggingNodeId == None
    ensures !IsDragging(MouseUp(s))
    ensures MouseUp(s).(isPanning := s.isPanning, draggingNodeId := s.draggingNodeId) == s
  {
  }

  // ---------------------------------------------------------------- drag

  /** A drag moves exactly the first node with the dragged id, to the drag
      origin plus the pointer's travel divided by the scale; every other node,
      every link and the scale stay as they were, and without a pan the offset
      does too. */
  lemma DragMovesOnlyThatNode(s: AppState, clientX: real, clientY: real, i: nat)
    requires s.scale > 0.0 && IsDragging(s)
    requires FindIndex(s.nodes, s.draggingNodeId.value) == Some(i)
    ensures |MouseMove(s, clientX, clientY).nodes| == |s.nodes|
    ensures MouseMove(s, clientX, clientY).nodes[i]
         == s.nodes[i].(x := s.dragNodeStart.x + (clientX - s.dragPointerStart.x) / s.scale,
                        y := s.dragNodeStart.y + (clientY - s.dragPointerStart.y) / s.scale)
    ensures forall j :: 0 <= j < |s.nodes| && j != i ==> MouseMove(s, clientX, clientY).nodes[j] == s.nodes[j]
    ensures MouseMove(s, clientX, clientY).links == s.links
    ensures MouseMove(s, clientX, clientY).scale == s.scale
    ensures !s.isPanning ==> MouseMove(s, clientX, clientY) == s.(nodes := MouseMove(s, clientX, clientY).nodes)
  {
  }

  /** Dividing by the scale makes the node follow the cursor: its on-screen
      travel equals the pointer's. */
  lemma DragTracksCursor(s: AppState, clientX: real, clientY: real, i: nat)
    requires s.scale > 0.0 && IsDragging(s)
    requires FindIndex(s.nodes, s.draggingNodeId.value) == Some(i)
    ensures (MouseMove(s, clientX, clientY).nodes[i].x - s.dragNodeStart.x) * s.scale == clientX - s.dragPointerStart.x
    ensures (MouseMove(s, clientX, clientY).nodes[i].y - s.dragNodeStart.y) * s.scale == clientY - s.dragPointerStart.y
  {
    var p := DraggedTo(s, clientX, clientY);
    assert (p.x - s.dragNodeStart.x) * s.scale == ((clientX - s.dragPointerStart.x) / s.scale) * s.scale;
    assert (p.y - s.dragNodeStart.y) * s.scale == ((clientY - s.dragPointerStart.y) / s.scale) * s.scale;
  }

  /** A drag whose id no longer resolves changes nothing. */
  lemma DragOfMissingNodeIsNoop(s: AppState, clientX: real, clientY: real)
    requires s.scale > 0.0 && !s.isPanning && IsDragging(s)
    requires !HasNode(s.nodes, s.draggingNodeId.value)
    ensures MouseMove(s, clientX, clientY) == s
  {
  }

  /** A drag whose id no longer resolves leaves the move to the pan alone,
      whether or not a pan is in progress. */
  lemma DragOfMissingNodeOnlyPans(s: AppState, clientX: real, clientY: real)
    requires s.scale > 0.0 && IsDragging(s)
    requires !HasNode(s.nodes, s.draggingNodeId.value)
    ensures MouseMove(s, clientX, clientY) == PanStage(s, clientX, clientY)
  {
  }

  /** Pressing on a node and moving to the press point leaves every node where
      it was. */
  lemma PressAndHoldKeepsNodes(s: AppState, nodeId: string, clientX: real, clientY: real)
    requires s.scale > 0.0
    ensures MouseMove(NodeMouseDown(s, nodeId, clientX, clientY), clientX, clientY).nodes == s.nodes
  {
    var t := NodeMouseDown(s, nodeId, clientX, clientY);
    match FindIndex(s.nodes, nodeId)
    case None =>
    case Some(i) =>
      assert t.dragNodeStart == Point(s.nodes[i].x, s.nodes[i].y);
      assert s.nodes[i := s.nodes[i].(x := s.nodes[i].x, y := s.nodes[i].y)] == s.nodes;
  }

  /** Pressing on a node at `(x0, y0)` and moving to `(x, y)` moves the first
      node with that id from where it was by the pointer's travel divided by the
      scale, and leaves every other node where it was. */
  lemma PressThenDrag(s: AppState, nodeId: string, x0: real, y0: real, x: real, y: real, i: nat)
    requires s.scale > 0.0 && nodeId != ""
    requires FindIndex(s.nodes, nodeId) == Some(i)
    ensures var t := MouseMove(NodeMouseDown(s, nodeId, x0, y0), x, y);
      && |t.nodes| == |s.nodes|
      && t.nodes[i] == s.nodes[i].(x := s.nodes[i].x + (x - x0) / s.scale,
                                   y := s.nodes[i].y + (y - y0) / s.scale)
      && (forall j :: 0 <= j < |s.nodes| && j != i ==> t.nodes[j] == s.nodes[j])
  {
    var u := NodeMouseDown(s, nodeId, x0, y0);
    assert u.dragNodeStart == Point(s.nodes[i].x, s.nodes[i].y);
    assert u.dragPointerStart == Point(x0, y0);
    assert PanStage(u, x, y).nodes == s.nodes;
  }

  /** Pan and drag are absolute in the pointer: a move only depends on the last
      pointer position, never on earlier moves. */
  lemma MouseMoveLastWins(s: AppState, x1: real, y1: real, x2: real, y2: real)
    requires s.scale > 0.0
    ensures MouseMove(MouseMove(s, x1, y1), x2, y2) == MouseMove(s, x2, y2)
  {
    var u := PanStage(s, x1, y1);
    StagesCommute(u, x1, y1, x2, y2);
    PanStageLastWins(s, x1, y1, x2, y2);
    DragStageLastWins(PanStage(s, x2, y2), x1, y1, x2, y2);
  }

  lemma PanStageLastWins(s: AppState, x1: real, y1: real, x2: real, y2: real)
    ensures PanStage(PanStage(s, x1, y1), x2, y2) == PanStage(s, x2, y2)
  {
  }

  lemma {:induction false} DragStageLastWins(s: AppState, x1: real, y1: real, x2: real, y2: real)
    requires s.scale > 0.0
    ensures DragStage(DragStage(s, x1, y1), x2, y2) == DragStage(s, x2, y2)
  {
    if IsDragging(s) && FindIndex(s.nodes, s.draggingNodeId.value).Some? {
      var t := DragStage(s, x1, y1);
      FindIndexIgnoresPositions(s.nodes, t.nodes, s.draggingNodeId.value);
    }
  }

  /** The two halves touch disjoint fields and neither reads what the other
      writes. */
  lemma StagesCommute(s: AppState, x1: real, y1: real, x2: real, y2: real)
    requires s.scale > 0.0
    ensures PanStage(DragStage(s, x1, y1), x2, y2) == DragStage(PanStage(s, x2, y2), x1, y1)
  {
  }

  // ---------------------------------------------------------------- keyboard

  predicate IsUpKey(key: string) { key == "ArrowUp" || key == "w" || key == "W" }
  predicate IsDownKey(key: string) { key == "ArrowDown" || key == "s" || key == "S" }
  predicate IsLeftKey(key: string) { key == "ArrowLeft" || key == "a" || key == "A" }
  predicate IsRightKey(key: string) { key == "ArrowRight" || key == "d" || key == "D" }

  /** The translation a key applies, as (dx, dy). */
  function KeyDX(key: string): real {
    if IsLeftKey(key) then 40.0 else if IsRightKey(key) then -40.0 else 0.0
  }
  function KeyDY(key: string): real {
    if IsUpKey(key) then 40.0 else if IsDownKey(key) then -40.0 else 0.0
  }

  /** Up/W adds 40 to `offsetY`, Down/S subtracts 40, Left/A adds 40 to
      `offsetX`, Right/D subtracts 40; any other key changes nothing. */
  lemma KeyDownPans(s: AppState, key: string)
    ensures KeyDown(s, key) == s.(offsetX := s.offsetX + KeyDX(key), offsetY := s.offsetY + KeyDY(key))
    ensures !IsUpKey(key) && !IsDownKey(key) && !IsLeftKey(key) && !IsRightKey(key) ==> KeyDown(s, key) == s
  {
    if IsUpKey(key) {
      assert !IsDownKey(key) && !IsLeftKey(key) && !IsRightKey(key);
    } else if IsDownKey(key) {
      assert !IsLeftKey(key) && !IsRightKey(key);
    } else if IsLeftKey(key) {
      assert !IsRightKey(key);
    }
  }

  /** Keyboard pans compose by adding their steps, so their order does not
      matter. */
  lemma KeyDownCommutes(s: AppState, a: string, b: string)
    ensures KeyDown(KeyDown(s, a), b) == KeyDown(KeyDown(s, b), a)
  {
    KeyDownPans(s, a);
    KeyDownPans(s, b);
    KeyDownPans(KeyDown(s, a), b);
    KeyDownPans(KeyDown(s, b), a);
  }

  /** Opposite directions cancel exactly. */
  lemma OppositeKeysCancel(s: AppState, a: string, b: string)
    requires (IsUpKey(a) && IsDownKey(b)) || (IsLeftKey(a) && IsRightKey(b))
    ensures KeyDown(KeyDown(s, a), b) == s
  {
    KeyDownPans(s, a);
    KeyDownPans(KeyDown(s, a), b);
  }

  // ---------------------------------------------------------------- link mode

  /** Arming records the source node with the supporting type; cancelling
      clears the mode and nothing else. */
  lemma StartAndCancelLink(s: AppState, nodeId: string)
    ensures StartLink(s, nodeId).linkMode == Some(LinkMode(nodeId, "supporting"))
    ensures StartLink(s, nodeId).(linkMode := s.linkMode) == s
    ensures CancelLink(StartLink(s, nodeId)) == s.(linkMode := None)
  {
  }

  /** The label is the trimmed prompt text when that has a non-whitespace
      character, else the target's title; without a target and without text
      there is no label (the source fails before adding a link). */
  lemma ChooseLabelRule(prompt: Option<string>, target: Option<Node>)
    ensures prompt.Some? && !AllWhitespace(prompt.value) ==> ChooseLabel(prompt, target) == Some(Trim(prompt.value))
    ensures (prompt.None? || AllWhitespace(prompt.value)) && target.Some? ==> ChooseLabel(prompt, target) == Some(target.value.title)
    ensures (prompt.None? || AllWhitespace(prompt.value)) && target.None? ==> ChooseLabel(prompt, target) == None
  {
    if prompt.Some? {
      TrimEmptyIffAllWhitespace(prompt.value);
    }
  }

  /** A typed label never starts or ends with whitespace. */
  lemma ChosenTypedLabelIsTrimmed(prompt: string, target: Option<Node>)
    requires !AllWhitespace(prompt)
    ensures ChooseLabel(Some(prompt), target).Some?
    ensures var l := ChooseLabel(Some(prompt), target).value;
      |l| > 0 && !IsWhitespace(l[0]) && !IsWhitespace(l[|l| - 1])
  {
    TrimEmptyIffAllWhitespace(prompt);
    var lo := TrimIsCoreSlice(prompt);
  }

  /** Without an armed mode, off a node, on an empty id or on the source node
      itself, the click changes nothing. */
  lemma CompleteLinkIgnored(s: AppState, clicked: Option<string>, prompt: Option<string>)
    requires s.linkMode.None? || clicked.None? || clicked == Some("")
          || (s.linkMode.Some? && clicked == Some(s.linkMode.value.fromId))
    ensures CompleteLink(s, clicked, prompt) == s
  {
  }

  /** Otherwise exactly one link `{from, to, label}` is appended after the
      existing ones and the mode is cleared; nothing else changes. */
  lemma CompleteLinkAppendsOne(s: AppState, toId: string, prompt: Option<string>)
    requires s.linkMode.Some? && toId != "" && toId != s.linkMode.value.fromId
    requires ChooseLabel(prompt, FindNode(s.nodes, toId)).Some?
    ensures var t := CompleteLink(s, Some(toId), prompt);
      && t.links == s.links + [Link(s.linkMode.value.fromId, toId, ChooseLabel(prompt, FindNode(s.nodes, toId)).value)]
      && t.links[..|s.links|] == s.links
      && t.linkMode.None?
      && t.(links := s.links, linkMode := s.linkMode) == s
  {
    var t := CompleteLink(s, Some(toId), prompt);
    assert t.links[..|s.links|] == s.links;
  }

  /** A blank or dismissed prompt on a target that does not resolve adds
      nothing and keeps the mode armed. */
  lemma CompleteLinkToMissingTargetIsNoop(s: AppState, toId: string, prompt: Option<string>)
    requires prompt.None? || AllWhitespace(prompt.value)
    requires !HasNode(s.nodes, toId)
    ensures CompleteLink(s, Some(toId), prompt) == s
  {
    ChooseLabelRule(prompt, FindNode(s.nodes, toId));
  }

  // ---------------------------------------------------------------- selection and centring

  /** Selection moves only to an id that resolves; nothing else changes. */
  lemma SelectNodeRule(s: AppState, nodeId: string)
    ensures HasNode(s.nodes, nodeId) ==> SelectNode(s, nodeId) == s.(selectedNodeId := Some(nodeId))
    ensures !HasNode(s.nodes, nodeId) ==> SelectNode(s, nodeId) == s
  {
  }

  /** Centring along one axis: the world coordinate under the canvas centre
      after `offset := -c` is `c / scale`, which is `c` itself only at scale 1
      or for `c == 0`. */
  lemma CentredCoordinate(c: real, sc: real)
    requires sc > 0.0
    ensures (0.0 - -c) / sc == c / sc
    ensures (0.0 - -c) / sc == c <==> sc == 1.0 || c == 0.0
  {
    if c / sc == c && c != 0.0 {
      var q := c / sc;
      assert q * sc == c;
      calc {
        c * sc;
        { assert q == c; }
        q * sc;
        c;
      }
      assert c * (sc - 1.0) == 0.0;
    }
  }

  /** Scrolling to a node sets the offset to its negated position, which puts
      the node under the canvas centre (as the zoom handler measures world
      points) only at scale 1 or for a node at the origin. */
  lemma ScrollCentresOnlyAtUnitScale(s: AppState, nodeId: string)
    requires s.scale > 0.0 && HasNode(s.nodes, nodeId)
    ensures var n, t := FindNode(s.nodes, nodeId).value, ScrollNodeIntoView(s, nodeId);
      && t == s.(offsetX := -n.x, offsetY := -n.y)
      && (0.0 - t.offsetX) / t.scale == n.x / s.scale
      && (0.0 - t.offsetY) / t.scale == n.y / s.scale
      && ((0.0 - t.offsetX) / t.scale == n.x <==> s.scale == 1.0 || n.x == 0.0)
      && ((0.0 - t.offsetY) / t.scale == n.y <==> s.scale == 1.0 || n.y == 0.0)
      && (((0.0 - t.offsetX) / t.scale == n.x && (0.0 - t.offsetY) / t.scale == n.y)
          <==> s.scale == 1.0 || (n.x == 0.0 && n.y == 0.0))
  {
    var n := FindNode(s.nodes, nodeId).value;
    CentredCoordinate(n.x, s.scale);
    CentredCoordinate(n.y, s.scale);
  }

  /** The click on a "Linked nodes" entry of a resolving node selects it and
      scrolls to it. */
  lemma HyperlinkClickSelectsAndScrolls(s: AppState, nodeId: string)
    requires HasNode(s.nodes, nodeId)
    ensures var n := FindNode(s.nodes, nodeId).value;
      HyperlinkClick(s, nodeId) == s.(selectedNodeId := Some(nodeId), offsetX := -n.x, offsetY := -n.y)
  {
  }

  // ---------------------------------------------------------------- start-up and runs

  /** Start-up places the loaded nodes, keeps the links, starts at scale 0.8
      with no gesture active, and selects the first node when there is one. */
  lemma InitialState(bubbles: seq<Bubble>, raw: seq<RawNode>, links: seq<Link>)
    ensures var s := Initial(bubbles, raw, links);
      && ScaleInRange(s) && s.scale == 0.8 && s.offsetX == 0.0 && s.offsetY == 0.0
      && !s.isPanning && s.draggingNodeId.None? && s.linkMode.None?
      && s.nodes == PlaceNodes(raw) && s.links == links && s.bubbles == bubbles
      && s.selectedNodeId == (if |raw| > 0 then Some(raw[0].id) else None)
  {
    var nodes := PlaceNodes(raw);
    if |raw| > 0 {
      assert nodes[0].id == raw[0].id;
      assert HasNode(nodes, nodes[0].id);
    }
  }

  /** What no handler changes: the bubbles, the node count and everything of a
      node but its position; and the links only ever grow at the end, by at most
      one per event. */
  ghost predicate Preserves(s: AppState, t: AppState) {
    && t.bubbles == s.bubbles
    && |t.nodes| == |s.nodes|
    && (forall j :: 0 <= j < |s.nodes| ==> Strip(t.nodes[j]) == Strip(s.nodes[j]))
    && |s.links| <= |t.links| && t.links[..|s.links|] == s.links
  }

  /** Nodes, bubbles and links untouched. */
  ghost predicate SameGraph(s: AppState, t: AppState) {
    t.bubbles == s.bubbles && t.nodes == s.nodes && t.links == s.links
  }

  lemma SameGraphPreserves(s: AppState, t: AppState)
    requires SameGraph(s, t)
    ensures Preserves(s, t)
  {
    assert t.links[..|s.links|] == s.links;
  }

  lemma MouseMovePreserves(s: AppState, x: real, y: real)
    requires s.scale > 0.0
    ensures Preserves(s, MouseMove(s, x, y)) && MouseMove(s, x, y).links == s.links
  {
    var t := MouseMove(s, x, y);
    assert t.links[..|s.links|] == s.links;
  }

  lemma CompleteLinkPreserves(s: AppState, clicked: Option<string>, prompt: Option<string>)
    ensures Preserves(s, CompleteLink(s, clicked, prompt))
    ensures |CompleteLink(s, clicked, prompt).links| <= |s.links| + 1
  {
    var t := CompleteLink(s, clicked, prompt);
    assert t.links[..|s.links|] == s.links;
  }

  /** No handler changes the bubbles or anything of a node but its position;
      the links grow only at the end, by at most one, and only on a click that
      reaches the completion listener under the corrected dispatch; as written,
      no event changes the links. */
  lemma StepPreserves(s: AppState, e: Event, d: Dispatch)
    requires s.scale > 0.0
    ensures Preserves(s, Step(s, e, d))
    ensures |Step(s, e, d).links| <= |s.links| + 1
    ensures !(e.CanvasInnerClicked? || (e.NodeClicked? && d == Corrected)) ==> Step(s, e, d).links == s.links
    ensures d == AsWritten ==> Step(s, e, d).links == s.links && Step(s, e, d).linkMode.Some? == (e.LinkStarted? || (s.linkMode.Some? && !e.LinkCancelled?))
  {
    match e
    case PointerMoved(x, y) => MouseMovePreserves(s, x, y);
    case CanvasInnerClicked(c, p) =>
      if d == AsWritten && c.Some? {
        SameGraphPreserves(s, s);
      } else {
        CompleteLinkPreserves(s, c, p);
      }
    case NodeClicked(id, p) =>
      var u := SelectNode(s, id);
      assert SameGraph(s, u);
      if d == Corrected {
        CompleteLinkPreserves(u, Some(id), p);
      } else {
        SameGraphPreserves(s, u);
      }
    case _ =>
      assert SameGraph(s, Step(s, e, d));
      SameGraphPreserves(s, Step(s, e, d));
  }

  /** Over any sequence of events, under either dispatch, the scale stays in
      [0.3, 2.5], the links are append-only and nodes keep their identity and
      content. */
  lemma {:induction false} RunPreserves(s: AppState, events: seq<Event>, d: Dispatch)
    requires ScaleInRange(s)
    ensures ScaleInRange(Run(s, events, d))
    ensures Preserves(s, Run(s, events, d))
    ensures |Run(s, events, d).links| <= |s.links| + |events|
    decreases |events|
  {
    if |events| > 0 {
      var t := Step(s, events[0], d);
      StepKeepsScaleInRange(s, events[0], d);
      StepPreserves(s, events[0], d);
      RunPreserves(t, events[1..], d);
      var u := Run(t, events[1..], d);
      assert u.links[..|s.links|] == u.links[..|t.links|][..|s.links|];
    }
  }

  /** As written, no run of events ever adds a link, and an armed link mode
      stays armed until a "cancel" event. */
  lemma {:induction false} RunAsWrittenKeepsLinks(s: AppState, events: seq<Event>)
    requires ScaleInRange(s)
    ensures Run(s, events, AsWritten).links == s.links
    ensures s.linkMode.Some? && (forall k :: 0 <= k < |events| ==> !events[k].LinkCancelled?)
            ==> Run(s, events, AsWritten).linkMode.Some?
    decreases |events|
  {
    if |events| > 0 {
      var t := Step(s, events[0], AsWritten);
      StepKeepsScaleInRange(s, events[0], AsWritten);
      StepPreserves(s, events[0], AsWritten);
      assert forall k :: 0 <= k < |events[1..]| ==> events[1..][k] == events[k + 1];
      RunAsWrittenKeepsLinks(t, events[1..]);
    }
  }
}
