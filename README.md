# Graph explorer interaction state, in Dafny

This project models the core of a browser-based graph explorer (`script.js`).
Circular "bubbles" and "node" cards sit on a canvas that can be panned and
zoomed. Directed, labelled links between nodes are drawn as lines. The model
covers two things:

- the interaction state held in the shared `state` record, and what each event
  handler does to it: wheel zoom, mouse pan, node drag, mouse release, keyboard
  pan, link mode, selection and centring on a node;
- the graph views the renderers compute from `bubbles`, `nodes` and `links`:
  initial node placement, the bubble → members grouping of the sidebar, the
  link lines, the link sentences of the text map, and the "Linked nodes" list
  of the detail panel.

Coordinates and the scale are `real`, so the zoom and drag identities hold
exactly. Ids and text are `string`. `null` is `None`. The link's `label`
field is called `caption`, because `label` is a Dafny keyword.

Layout:

- `graph.dfy` (`Graph`): the records and the lookup by id (`nodes.find`, first match).
- `placement.dfy` (`Placement`): initial placement from the 15-entry table.
- `jstext.dfy` (`JsText`): `String.prototype.trim`, as the link-label prompt uses it.
- `projections.dfy` (`Projections`): link lines, link sentences, detail panel.
- `sidebar.dfy` (`Sidebar`): the `bubbleMap` grouping loops, proved against `MembersOf` and `Unassigned`.
- `interaction.dfy` (`Interaction`): the state as a value (`AppState`) and one total update function per handler.
- `interaction_props.dfy` (`InteractionProps`): the properties of those handlers.
- `click_dispatch.dfy` (`ClickDispatch`): how a click on a node card is dispatched (see Findings).
- `explorer.dfy` (`Explorer`): the `state` object as a class. Its handler methods update fields in place. Each is proved to perform exactly the update of its `Interaction` function. It also holds the link-walking render loops.

Inputs the browser supplies are parameters:

- the pointer position (`clientX`, `clientY`);
- for the wheel, the pointer offset `(cx, cy)` from the canvas centre, which the source computes with `getBoundingClientRect`;
- whether a press landed on a node card;
- the id of the clicked node element;
- the text the label prompt returned, where `None` means the prompt was dismissed.

Behaviours of `script.js` worth noting:

- Centring on a node sets the offset to the node's negated position and ignores the scale. The node therefore lands under the canvas centre only at scale 1 or when it sits at the origin (`InteractionProps.ScrollCentresOnlyAtUnitScale`).
- A link to a target that does not resolve is refused only when the label is blank, because the source then reads the title of a missing node and throws. With a typed label, the link is added anyway.
- Dismissing the label prompt still creates the link, labelled with the target's title.
- A node whose bubble list names only unknown bubbles appears in no folder and not in the unassigned bucket.
- The link mode can never be completed by a click on a node, because of the event dispatch (see Findings). `Interaction.Step` and `Interaction.Run` take a `Dispatch` argument: `AsWritten` is the code's behaviour: a node click only selects, and the canvas-inner listener only ever receives clicks off the cards, which complete nothing. `Corrected` lets a node click reach the completion listener. The folder and flat-list buttons (lines 201 and 227) are a separate event that only selects.

## Model

| member | source | states |
|---|---|---|
| Graph.FindIndex | script.js:408 | the first index whose node has the id; none exactly when no node has it |
| Graph.FindNode | script.js:292 | a node is found exactly when some node has the id, and it is a node of the list with that id |
| Graph.FindIndexIgnoresPositions | script.js:407-413 | moving nodes never changes which node a lookup by id finds |
| Placement.PlaceThenStrip | script.js:63-67 | placement keeps every loaded node, in order, and adds only a position: stripping it gives the loaded nodes back |
| Placement.PlacementIsPrefixStable | script.js:63-67 | a node's position depends only on its load index; appending nodes never moves earlier ones |
| Placement.FallbackColumn | script.js:65-66 | a node at index 15 or later is placed at (0, 60·index) |
| Placement.PlacementIsInjective | script.js:45-67 | no two loaded nodes start at the same position |
| Placement.TableIsInjective | script.js:45-61 | the table has 15 distinct entries and none lies on the vertical axis |
| JsText.TrimStartSpec | script.js:533 | the result is the suffix of the text from its first non-whitespace character; everything dropped is whitespace |
| JsText.TrimEndSpec | script.js:533 | the result is the prefix of the text up to its last non-whitespace character; everything dropped is whitespace |
| JsText.TrimIsCoreSlice | script.js:533 | trim returns a contiguous slice with only whitespace around it, starting and ending with a non-whitespace character |
| JsText.TrimEmptyIffAllWhitespace | script.js:533 | the trimmed label is empty exactly when the prompt text is all whitespace |
| JsText.TrimIsIdempotent | script.js:533 | trimming twice equals trimming once |
| Projections.ResolvedLinksMembership | script.js:344-347 | a link is drawn exactly when it is in the list and both of its ends resolve |
| Projections.ResolvedLinksAppend | script.js:344-347 | the dangling-link filter works link by link, so it keeps the original order |
| Projections.ResolvedLinksBound | script.js:344-347 | the filter never adds links, and it drops none exactly when no link dangles |
| Projections.LinkLinesFollowResolved | script.js:344-364 | one line per resolving link, in order, from each end node's position plus (100, 30) |
| Projections.LinkSentencesFollowResolved | script.js:277-284 | one sentence "from SEP to (label)." per resolving link, in order, with both nodes' titles; SEP is the file's literal separator, the UTF-8 bytes of a right arrow stored double-encoded and read back as the three characters U+00E2 U+2020 U+2019 between spaces |
| Projections.OutboundMembership | script.js:316 | the related links are exactly the links whose `from` is the selected node |
| Projections.OutboundAppend | script.js:316 | the filter works link by link, so the related links keep the order of `links` |
| Projections.LinkedItemsMembership | script.js:320-327 | an entry is listed exactly when some related link has a resolving target and the entry shows that target; a dangling target contributes nothing |
| Projections.LinkedItemsAppend | script.js:320-327 | entries are built link by link, so they follow the order of the related links |
| Projections.LinkedItemsFollowTargets | script.js:320-327 | exactly one entry per related link whose target resolves, index by index and duplicates included, showing `label` or else the target's title |
| Projections.TargetResolvedMembership | script.js:322-323 | a related link is kept exactly when its target resolves |
| Projections.TargetResolvedAppend | script.js:321-323 | dropping links with a missing target works link by link, so the order is kept |
| Projections.DetailListsOutboundResolved | script.js:291-331 | the panel exists for a resolving node; its "Linked nodes" section exists exactly when the node has an outbound link; its entries are the outbound links whose target resolves, labelled `label` or else the target's title |
| Projections.DetailListsInOrder | script.js:316-327 | the "Linked nodes" entries follow the outbound links in order, one per outbound link whose target resolves, duplicates counted separately |
| Sidebar.Count | script.js:162 | an id occurs in a node's bubble list exactly when its count is positive |
| Sidebar.EmptyBubbleMap | script.js:154-157 | the map holds exactly the known bubble ids, each with an empty list |
| Sidebar.PushMember | script.js:161-164 | each known bucket gains one copy of the node per occurrence of its id in the node's list; unknown ids are ignored |
| Sidebar.BuildBubbleMap | script.js:154-168 | the buckets are exactly the known bubbles, each holding `MembersOf` its id; the unassigned bucket holds the nodes with no bubbles, in order |
| Sidebar.MembersOfMembership | script.js:160-164 | a node is in bucket b exactly when it is one of the nodes and names b |
| Sidebar.MembersOfAppend | script.js:160-164 | buckets are filled node by node, so each keeps the node order |
| Sidebar.MembersOfSingle | script.js:162-164 | one node contributes as many copies of itself as it has occurrences of b |
| Sidebar.UnassignedMembership | script.js:158-167 | the unassigned bucket holds exactly the nodes with an empty bubble list |
| Sidebar.NodeWithOnlyUnknownBubblesIsUnlisted | script.js:160-167 | a node that names only unknown bubbles is in no folder and not unassigned |
| Interaction.StepKeepsScaleInRange | script.js:368-384 | every handler keeps the scale in [0.3, 2.5] |
| InteractionProps.WheelBoundsScale | script.js:370-372 | after any wheel event the scale is in [0.3, 2.5], and only the scale and offset change |
| InteractionProps.WheelDirection | script.js:370-372 | scrolling down multiplies the scale by 0.9, and the result is exactly 0.3 when that product is below 0.3; otherwise it multiplies by 1.1, and the result is exactly 2.5 when that product is above 2.5 |
| InteractionProps.ZoomKeepsCoordinate | script.js:379-380 | the offset update `c + (o - c)·(n/s)` keeps `(c - o)/s` |
| InteractionProps.WheelKeepsPointUnderCursor | script.js:376-381 | the world point `(cx - offsetX)/scale` under the pointer is the same before and after the zoom, in x and y |
| InteractionProps.ZoomInThenOutDrifts | script.js:371-372 | away from the bounds (1.1·scale ≤ 2.5 and 0.99·scale ≥ 0.3), zooming in and then out at one point leaves the scale at 0.99 of the original |
| InteractionProps.PanFollowsPointer | script.js:399-404 | while panning, the offset is the pan origin plus the pointer's travel since the press |
| InteractionProps.PanBackToStartRestoresOffset | script.js:387-404 | pressing on the canvas and returning the pointer to the press point restores the offset |
| InteractionProps.PressOnNodeDoesNotPan | script.js:388-390 | a press on a node card never starts a pan |
| InteractionProps.MouseUpEndsGestures | script.js:423-426 | mouseup always clears `isPanning` and `draggingNodeId` and nothing else |
| InteractionProps.DragMovesOnlyThatNode | script.js:407-413 | the dragged node moves to `dragNodeStart + (pointer - dragPointerStart)/scale`; other nodes, links and scale are unchanged, and so is the offset when not panning |
| InteractionProps.DragTracksCursor | script.js:410-413 | the dragged node's on-screen travel equals the pointer's travel |
| InteractionProps.DragOfMissingNodeIsNoop | script.js:407-409 | with no pan in progress, a drag whose id resolves to no node changes nothing |
| InteractionProps.DragOfMissingNodeOnlyPans | script.js:398-409 | a drag whose id resolves to no node leaves a mousemove to the pan alone, whether or not a pan is in progress |
| InteractionProps.PressAndHoldKeepsNodes | script.js:429-437 | pressing on a node and moving to the press point leaves every node in place |
| InteractionProps.PressThenDrag | script.js:407-413 | pressing on a resolving node at (x0, y0) and moving to (x, y) moves that node from its old position by (x - x0, y - y0)/scale and leaves every other node in place |
| InteractionProps.MouseMoveLastWins | script.js:398-421 | a mousemove depends only on the latest pointer, not on earlier moves |
| InteractionProps.PanStageLastWins | script.js:399-405 | the pan half depends only on the latest pointer |
| InteractionProps.DragStageLastWins | script.js:407-413 | the drag half depends only on the latest pointer |
| InteractionProps.StagesCommute | script.js:398-421 | pan and drag touch disjoint fields and can be applied in either order |
| InteractionProps.KeyDownPans | script.js:445-463 | Up/W adds 40 to offsetY, Down/S subtracts 40, Left/A adds 40 to offsetX, Right/D subtracts 40, and any other key changes nothing |
| InteractionProps.KeyDownCommutes | script.js:445-463 | two key presses give the same state in either order |
| InteractionProps.OppositeKeysCancel | script.js:445-463 | a press and the opposite press restore the state |
| InteractionProps.StartAndCancelLink | script.js:483-493 | arming records the source node with type "supporting"; cancelling clears the mode and nothing else |
| InteractionProps.ChooseLabelRule | script.js:528-533 | the label is the trimmed prompt text when it has a non-whitespace character, else the target's title; with no target there is no label |
| InteractionProps.ChosenTypedLabelIsTrimmed | script.js:533 | a typed label is non-empty and neither starts nor ends with whitespace |
| InteractionProps.CompleteLinkIgnored | script.js:522-526 | with no link mode, a click off a node, an empty id, or the source node itself, nothing changes |
| InteractionProps.CompleteLinkAppendsOne | script.js:532-540 | otherwise exactly one link {fromId, toId, label} is appended after the untouched prior links, the mode becomes null, and nothing else changes |
| InteractionProps.CompleteLinkToMissingTargetIsNoop | script.js:532-533 | a blank or dismissed prompt for a target that does not resolve adds nothing |
| InteractionProps.SelectNodeRule | script.js:291-295 | selection changes only to an id that resolves, and nothing else changes |
| InteractionProps.CentredCoordinate | script.js:563-564 | in one axis, after the offset becomes the negated coordinate, the world coordinate under the canvas centre is the coordinate divided by the scale, and equals it exactly at scale 1 or for coordinate 0 |
| InteractionProps.ScrollCentresOnlyAtUnitScale | script.js:560-566 | centring sets the offset to the negated node position; in each axis the world coordinate under the canvas centre is the node's divided by the scale, so the node is under the centre exactly when the scale is 1 or the node is at the origin |
| InteractionProps.HyperlinkClickSelectsAndScrolls | script.js:550-557 | clicking a linked entry selects the node and scrolls to it |
| InteractionProps.InitialState | script.js:1-19 | start-up is at scale 0.8 with offset 0, no gesture and no link mode; it holds the placed nodes and the given links, and selects the first node |
| InteractionProps.StepPreserves | script.js:368-566 | under either dispatch, no handler changes the bubbles or anything of a node but its position; links only grow at the end, by at most one, and only on a click that reaches the completion listener; as written no event changes the links, and only start and cancel change whether a link is armed |
| InteractionProps.RunPreserves | script.js:368-566 | over any sequence of events, under either dispatch, the scale stays in range, links are append-only, and nodes keep their identity |
| InteractionProps.RunAsWrittenKeepsLinks | script.js:131-134 | as written, no run of events adds a link, and an armed link mode stays armed until a cancel event |
| ClickDispatch.NodeClickAsWrittenNeverLinks | script.js:131-134 | as written, a click on a node never adds a link and never disarms the link mode |
| ClickDispatch.ArmedClickCounterexample | script.js:131-134 | with a link armed from a, clicking b adds nothing as written; corrected, it adds a → b and a line joining the cards |
| ClickDispatch.NodeClickCompletesArmedLink | script.js:521-540 | corrected dispatch: a click on another resolving node while armed selects it, appends one link and disarms |
| ClickDispatch.NodeClickOtherwiseSelects | script.js:131-134 | corrected dispatch: with no armed link, or on the source itself, a click only selects |
| Explorer.ExplorerState.constructor | script.js:33-70 | the new state is the start-up state: placed nodes, the given links, scale 0.8, the first node selected |
| Explorer.ExplorerState.Wheel | script.js:368-384 | in-place zoom equal to `Interaction.Wheel`, keeping the point under the pointer and the scale range |
| Explorer.ExplorerState.CanvasMouseDown | script.js:387-396 | in-place update equal to `Interaction.CanvasMouseDown` |
| Explorer.ExplorerState.NodeMouseDown | script.js:429-437 | in-place update equal to `Interaction.NodeMouseDown` |
| Explorer.ExplorerState.MouseMove | script.js:398-421 | in-place pan and node drag equal to `Interaction.MouseMove` |
| Explorer.ExplorerState.MouseUp | script.js:423-426 | clears both gestures, equal to `Interaction.MouseUp` |
| Explorer.ExplorerState.KeyDown | script.js:445-467 | in-place keyboard pan equal to `Interaction.KeyDown` |
| Explorer.ExplorerState.StartLink | script.js:483-487 | arms the link mode, equal to `Interaction.StartLink` |
| Explorer.ExplorerState.CancelLink | script.js:491-494 | clears the link mode |
| Explorer.ExplorerState.SelectNode | script.js:291-332 | updates the selection as `Interaction.SelectNode` and returns the detail panel of `DetailPanel` |
| Explorer.ExplorerState.CanvasInnerClick | script.js:521-547 | link completion equal to `Interaction.CompleteLink`; the selected node's panel is shown again exactly when a link was added and a node was selected, and not otherwise |
| Explorer.ExplorerState.NodeClick | script.js:131-134 | corrected dispatch: select, then complete, equal to `Interaction.NodeClick` |
| Explorer.ExplorerState.ScrollNodeIntoView | script.js:560-566 | in-place centring equal to `Interaction.ScrollNodeIntoView` |
| Explorer.ExplorerState.HyperlinkClick | script.js:550-557 | select and scroll, equal to `Interaction.HyperlinkClick` |
| Explorer.ExplorerState.RebuildLinks | script.js:340-365 | the loop produces exactly `LinkLines`: one line per resolving link, never more lines than links |
| Explorer.ExplorerState.LinkSentencesOfTextMap | script.js:277-284 | the loop produces exactly `LinkSentences` |

## Left out

- DOM construction, styling, SVG attributes and highlight colours (`buildCanvas`, the folder and flat node lists, `buildHiddenContentDump`, `updateCanvasTransform`, the highlight loops in `selectNode`). These are presentation output. The detail panel is modelled as its data (title, raw content, linked entries), not as HTML.
- The bubble section of `buildTextMap` (lines 262-270), which is presentation text. Note that it lists a node once per bubble, while the sidebar lists it once per occurrence.
- Event-listener registration and the context-menu element lifecycle (`openNodeContextMenu`, `closeContextMenu`). Only the `linkMode` assignments are kept.
- The `alert` and `window.prompt` dialogs and `getBoundingClientRect`. They are foreign UI calls; the prompt's result and the pointer offset are parameters.
- `JSON.parse` of the embedded data, the bubbles' `diameter` precomputation and the copy of the links array. These are I/O and presentation data.
- IEEE-754 rounding, NaN and infinite inputs. The model uses exact reals.
- Which mouse button was pressed. The source does not look at it, so neither does the model.
- JavaScript object-key quirks of `bubbleMap`. An inherited name such as `toString` used as a bubble id is not modelled: ids are plain map keys.
- A missing `bubbles` array on a node is modelled as the empty list. Ids are always strings.
- The re-selection after a new link (line 544-545). It re-renders the panel, which `CanvasInnerClick` returns, but changes no state.
- `Interaction.Wheel`, `Interaction.MouseMove`: these demand a positive scale because they divide by it. The source relies on the scale always being in [0.3, 2.5], as `StepKeepsScaleInRange` shows.
- The editor form (new/save/delete with cascade) and JSON export. They are not in `script.js`.

## Findings

| source | as written | input that shows it | evidently intended | confidence | as-written member | corrected member |
|---|---|---|---|---|---|---|
| script.js:131-134 | The node card's click listener calls `stopPropagation`. The link-completion listener on the card's parent (line 521) therefore never receives a click on a node, and an armed link can never be completed. | Nodes `a` and `b`, a link armed from `a`, a click on `b`, prompt "supports": no link is added and the mode stays armed. | The click reaches the completion listener. Then the link `a → b` labelled "supports" is added, the mode is cleared, and a line joins the two cards. | not executed; high | Interaction.NodeClickAsWritten, ClickDispatch.ArmedClickCounterexample | Interaction.NodeClick, ClickDispatch.NodeClickCompletesArmedLink |
