/** The explorer's interaction state (the `state` record of script.js) as a
    value, and each event handler as a total update of it. */
module Interaction {
  import opened Graph
  import opened JsText
  import opened Placement

  const MinScale: real := 0.3
  const MaxScale: real := 2.5
  const InitialScale: real := 0.8
  /** Wheel factors: zoom out when `deltaY > 0`, zoom in otherwise. */
  const ZoomOutFactor: real := 0.9
  const ZoomInFactor: real := 1.1
  /** Keyboard pan step, in screen pixels. */
  const KeyStep: real := 40.0
  /** The only link type the context menu arms. */
  const SupportingLink: string := "supporting"

  /** An armed link gesture: `{ fromId, type }`. */
  datatype LinkMode = LinkMode(fromId: string, kind: string)

  /** The fields of `state`, in the source's order. `None` stands for `null`. */
  datatype AppState = AppState(
    scale: real, offsetX: real, offsetY: real,
    isPanning: bool, panStartX: real, panStartY: real, panOriginX: real, panOriginY: real,
    draggingNodeId: Option<string>, dragNodeStart: Point, dragPointerStart: Point,
    selectedNodeId: Option<string>, linkMode: Option<LinkMode>,
    bubbles: seq<Bubble>, nodes: seq<Node>, links: seq<Link>)

  /** The scale range every handler keeps. */
  predicate ScaleInRange(s: AppState) {
    MinScale <= s.scale <= MaxScale
  }

  function Min(a: real, b: real): real { if a <= b then a else b }
  function Max(a: real, b: real): real { if a >= b then a else b }

  /** The state after start-up: the literal defaults, `loadInitialData`, and the
      selection of the first node. */
  function Initial(bubbles: seq<Bubble>, raw: seq<RawNode>, links: seq<Link>): AppState {
    var s := AppState(InitialScale, 0.0, 0.0, false, 0.0, 0.0, 0.0, 0.0,
                      None, Point(0.0, 0.0), Point(0.0, 0.0), None, None,
                      bubbles, PlaceNodes(raw), links);
    if |s.nodes| > 0 then SelectNode(s, s.nodes[0].id) else s
  }

  // ---------------------------------------------------------------- view transform

  function ZoomFactor(deltaY: real): real {
    if deltaY > 0.0 then ZoomOutFactor else ZoomInFactor
  }

  /** Wheel handler; `(cx, cy)` is the pointer relative to the canvas centre. */
  function Wheel(s: AppState, deltaY: real, cx: real, cy: real): AppState
    requires s.scale > 0.0
  {
    var newScale := Min(MaxScale, Max(MinScale, s.scale * ZoomFactor(deltaY)));
    s.(offsetX := cx + (s.offsetX - cx) * (newScale / s.scale),
       offsetY := cy + (s.offsetY - cy) * (newScale / s.scale),
       scale := newScale)
  }

  /** Keydown handler: four independent tests, each moving one offset by 40. */
  function KeyDown(s: AppState, key: string): AppState {
    var s1 := if key == "ArrowUp" || key == "w" || key == "W" then s.(offsetY := s.offsetY + KeyStep) else s;
    var s2 := if key == "ArrowDown" || key == "s" || key == "S" then s1.(offsetY := s1.offsetY - KeyStep) else s1;
    var s3 := if key == "ArrowLeft" || key == "a" || key == "A" then s2.(offsetX := s2.offsetX + KeyStep) else s2;
    if key == "ArrowRight" || key == "d" || key == "D" then s3.(offsetX := s3.offsetX - KeyStep) else s3
  }

  /** `scrollNodeIntoView`: the offset becomes the negated node position. */
  function ScrollNodeIntoView(s: AppState, nodeId: string): AppState {
    match FindNode(s.nodes, nodeId)
    case None => s
    case Some(n) => s.(offsetX := -n.x, offsetY := -n.y)
  }

  // ---------------------------------------------------------------- gestures

  /** Canvas mousedown; a press on a node never starts a pan. */
  function CanvasMouseDown(s: AppState, onNode: bool, clientX: real, clientY: real): AppState {
    if onNode then s
    else s.(isPanning := true, panStartX := clientX, panStartY := clientY,
            panOriginX := s.offsetX, panOriginY := s.offsetY)
  }

  /** `onNodeMouseDown`: the id is recorded even when it does not resolve; the
      drag origin only when it does. */
  function NodeMouseDown(s: AppState, nodeId: string, clientX: real, clientY: real): AppState {
    var s1 := s.(draggingNodeId := Some(nodeId));
    match FindNode(s.nodes, nodeId)
    case None => s1
    case Some(n) => s1.(dragNodeStart := Point(n.x, n.y), dragPointerStart := Point(clientX, clientY))
  }

  /** `if (state.draggingNodeId)`: a null or empty id is falsy. */
  predicate IsDragging(s: AppState) {
    s.draggingNodeId.Some? && s.draggingNodeId.value != ""
  }

  /** The position the dragged node takes for pointer `(clientX, clientY)`. */
  function DraggedTo(s: AppState, clientX: real, clientY: real): Point
    requires s.scale > 0.0
  {
    Point(s.dragNodeStart.x + (clientX - s.dragPointerStart.x) / s.scale,
          s.dragNodeStart.y + (clientY - s.dragPointerStart.y) / s.scale)
  }

  /** The pan half of mousemove: while panning, the offset is the pan origin
      plus the pointer's travel. */
  function PanStage(s: AppState, clientX: real, clientY: real): AppState {
    if s.isPanning
    then s.(offsetX := s.panOriginX + (clientX - s.panStartX),
            offsetY := s.panOriginY + (clientY - s.panStartY))
    else s
  }

  /** The drag half of mousemove: the first node with the dragged id moves;
      an id that does not resolve leaves the state alone. */
  function DragStage(s: AppState, clientX: real, clientY: real): AppState
    requires s.scale > 0.0
  {
    if !IsDragging(s) then s
    else
      match FindIndex(s.nodes, s.draggingNodeId.value)
      case None => s
      case Some(i) =>
        var p := DraggedTo(s, clientX, clientY);
        s.(nodes := s.nodes[i := s.nodes[i].(x := p.x, y := p.y)])
  }

  /** Window mousemove: first the pan, then the drag. */
  function MouseMove(s: AppState, clientX: real, clientY: real): AppState
    requires s.scale > 0.0
  {
    DragStage(PanStage(s, clientX, clientY), clientX, clientY)
  }

  /** Window mouseup. */
  function MouseUp(s: AppState): AppState {
    s.(isPanning := false, draggingNodeId := None)
  }

  // ---------------------------------------------------------------- selection and links

  /** `selectNode`: the selection changes only to an id that resolves. */
  function SelectNode(s: AppState, nodeId: string): AppState {
    if FindNode(s.nodes, nodeId).Some? then s.(selectedNodeId := Some(nodeId)) else s
  }

  /** Context menu "Start supporting link from this node". */
  function StartLink(s: AppState, nodeId: string): AppState {
    s.(linkMode := Some(LinkMode(nodeId, SupportingLink)))
  }

  /** Context menu "Cancel active link". */
  function CancelLink(s: AppState): AppState {
    s.(linkMode := None)
  }

  /** The label of a new link: the trimmed prompt text when it is not blank,
      otherwise the target's title. `None` when the title would be read from a
      target that does not resolve (the source throws there). A dismissed
      prompt (`None`) counts as blank. */
  function ChooseLabel(prompt: Option<string>, target: Option<Node>): Option<string> {
    if prompt.Some? && |Trim(prompt.value)| > 0 then Some(Trim(prompt.value))
    else
      match target
      case None => None
      case Some(t) => Some(t.title)
  }

  /** The canvas-inner click listener. `clicked` is the id of the node element
      under the pointer, `None` for a click elsewhere; `prompt` is what the
      label prompt returned. */
  function CompleteLink(s: AppState, clicked: Option<string>, prompt: Option<string>): AppState {
    if s.linkMode.None? || clicked.None? then s
    else if clicked.value == "" || clicked.value == s.linkMode.value.fromId then s
    else
      match ChooseLabel(prompt, FindNode(s.nodes, clicked.value))
      case None => s
      case Some(text) =>
        s.(links := s.links + [Link(s.linkMode.value.fromId, clicked.value, text)], linkMode := None)
  }

  /** A click on a node AS WRITTEN: the node's own listener selects it and stops
      propagation, so the canvas-inner listener never sees the click. */
  function NodeClickAsWritten(s: AppState, nodeId: string, prompt: Option<string>): AppState {
    SelectNode(s, nodeId)
  }

  /** A click on a node with the click allowed to reach the canvas-inner
      listener: select, then try to complete an armed link. */
  function NodeClick(s: AppState, nodeId: string, prompt: Option<string>): AppState {
    CompleteLink(SelectNode(s, nodeId), Some(nodeId), prompt)
  }

  /** A click on a "Linked nodes" entry: select the node and scroll to it. */
  function HyperlinkClick(s: AppState, nodeId: string): AppState {
    ScrollNodeIntoView(SelectNode(s, nodeId), nodeId)
  }

  // ---------------------------------------------------------------- events

  datatype Event =
    | Wheeled(deltaY: real, cx: real, cy: real)
    | CanvasPressed(onNode: bool, clientX: real, clientY: real)
    | NodePressed(nodeId: string, clientX: real, clientY: real)
    | PointerMoved(clientX: real, clientY: real)
    | Released
    | KeyPressed(key: string)
    | LinkStarted(nodeId: string)
    | LinkCancelled
    | CanvasInnerClicked(clicked: Option<string>, prompt: Option<string>)
    | NodeClicked(nodeId: string, prompt: Option<string>)
    | HyperlinkClicked(nodeId: string)
    | ListButtonClicked(nodeId: string)

  /** How a click on a node card reaches the listeners: `AsWritten`, the card's
      listener alone (it stops propagation, so the canvas-inner listener only
      ever sees clicks off the cards); `Corrected`, the card's listener and then
      the canvas-inner one. */
  datatype Dispatch = AsWritten | Corrected

  function Step(s: AppState, e: Event, d: Dispatch): AppState
    requires s.scale > 0.0
  {
    match e
    case Wheeled(dy, cx, cy) => Wheel(s, dy, cx, cy)
    case CanvasPressed(onNode, x, y) => CanvasMouseDown(s, onNode, x, y)
    case NodePressed(id, x, y) => NodeMouseDown(s, id, x, y)
    case PointerMoved(x, y) => MouseMove(s, x, y)
    case Released => MouseUp(s)
    case KeyPressed(k) => KeyDown(s, k)
    case LinkStarted(id) => StartLink(s, id)
    case LinkCancelled => CancelLink(s)
    case CanvasInnerClicked(c, p) =>
      if d == AsWritten && c.Some? then s else CompleteLink(s, c, p)
    case NodeClicked(id, p) =>
      if d == AsWritten then NodeClickAsWritten(s, id, p) else NodeClick(s, id, p)
    case HyperlinkClicked(id) => HyperlinkClick(s, id)
    case ListButtonClicked(id) => SelectNode(s, id)
  }

  /** Events handled one after another, each to completion. */
  function Run(s: AppState, events: seq<Event>, d: Dispatch): AppState
    requires ScaleInRange(s)
    decreases |events|
  {
    if |events| == 0 then s
    else
      var t := Step(s, events[0], d);
      StepKeepsScaleInRange(s, events[0], d);
      Run(t, events[1..], d)
  }

  /** Every handler keeps the scale in [0.3, 2.5]. */
  lemma StepKeepsScaleInRange(s: AppState, e: Event, d: Dispatch)
    requires ScaleInRange(s)
    ensures ScaleInRange(Step(s, e, d))
  {
  }
}
