/** How a click on a node card is dispatched. The card's own click listener
    selects the node and stops the event's propagation, and the listener that
    completes an armed link sits on the card's parent, so as written a link
    gesture can never be completed. The corrected dispatch lets the click reach
    the parent: select, then complete. */
module ClickDispatch {
  import opened Graph
  import opened Projections
  import opened Interaction

  /** As written, a click on a node never adds a link and never disarms the
      link mode. */
  lemma NodeClickAsWrittenNeverLinks(s: AppState, nodeId: string, prompt: Option<string>)
    ensures NodeClickAsWritten(s, nodeId, prompt).links == s.links
    ensures NodeClickAsWritten(s, nodeId, prompt).linkMode == s.linkMode
  {
  }

  function NodeA(): Node { Node("a", "A", "", "", [], -200.0, -420.0) }
  function NodeB(): Node { Node("b", "B", "", "", [], -220.0, -230.0) }

  /** Two nodes, a link armed from `a`. */
  function ArmedState(): AppState {
    AppState(0.8, 0.0, 0.0, false, 0.0, 0.0, 0.0, 0.0, None, Point(0.0, 0.0), Point(0.0, 0.0),
             Some("a"), Some(LinkMode("a", SupportingLink)), [], [NodeA(), NodeB()], [])
  }

  /** The input that shows it: with a link armed from `a`, clicking `b` and
      typing "supports" adds no link as written, but adds `a -> b` and a line
      joining the two cards once the click reaches the completion listener. */
  lemma ArmedClickCounterexample()
    ensures NodeClickAsWritten(ArmedState(), "b", Some("supports")).links == []
    ensures NodeClickAsWritten(ArmedState(), "b", Some("supports")).linkMode.Some?
    ensures NodeClick(ArmedState(), "b", Some("supports")).links == [Link("a", "b", "supports")]
    ensures NodeClick(ArmedState(), "b", Some("supports")).linkMode.None?
    ensures LinkLines(NodeClick(ArmedState(), "b", Some("supports")).nodes,
                      NodeClick(ArmedState(), "b", Some("supports")).links)
         == [Line("a", "b", -100.0, -390.0, -120.0, -200.0)]
  {
    var s := ArmedState();
    var t := NodeClick(s, "b", Some("supports"));
    ArmedClickSelects();
    ArmedClickCompletes();
    assert t.links == [Link("a", "b", "supports")];
    assert t.nodes == [NodeA(), NodeB()];
    LineForSupports();
  }

  lemma ArmedClickSelects()
    ensures SelectNode(ArmedState(), "b") == ArmedState().(selectedNodeId := Some("b"))
  {
    assert FindNode(ArmedState().nodes, "b") == Some(NodeB());
  }

  lemma ArmedClickCompletes()
    ensures CompleteLink(ArmedState().(selectedNodeId := Some("b")), Some("b"), Some("supports"))
         == ArmedState().(selectedNodeId := Some("b"), links := [Link("a", "b", "supports")], linkMode := None)
  {
    var u := ArmedState().(selectedNodeId := Some("b"));
    assert FindNode(u.nodes, "b") == Some(NodeB());
    LabelSupports();
  }

  lemma LabelSupports()
    ensures ChooseLabel(Some("supports"), Some(NodeB())) == Some("supports")
  {
    assert JsText.TrimStart("supports") == "supports";
    assert JsText.TrimEnd("supports") == "supports";
  }

  lemma LineForSupports()
    ensures LinkLines([NodeA(), NodeB()], [Link("a", "b", "supports")])
         == [Line("a", "b", -100.0, -390.0, -120.0, -200.0)]
  {
    var nodes, links := [NodeA(), NodeB()], [Link("a", "b", "supports")];
    assert FindNode(nodes, "a") == Some(NodeA());
    assert FindNode(nodes, "b") == Some(NodeB());
    assert links[..0] == [];
  }

  /** Corrected: a click on another resolving node while a link is armed selects
      it, appends exactly one link from the armed source to it, and disarms. */
  lemma NodeClickCompletesArmedLink(s: AppState, nodeId: string, prompt: Option<string>)
    requires s.linkMode.Some? && nodeId != "" && nodeId != s.linkMode.value.fromId
    requires HasNode(s.nodes, nodeId)
    ensures var t := NodeClick(s, nodeId, prompt);
      && ChooseLabel(prompt, FindNode(s.nodes, nodeId)).Some?
      && t.links == s.links + [Link(s.linkMode.value.fromId, nodeId, ChooseLabel(prompt, FindNode(s.nodes, nodeId)).value)]
      && t.linkMode.None?
      && t.selectedNodeId == Some(nodeId)
      && t.(links := s.links, linkMode := s.linkMode, selectedNodeId := s.selectedNodeId) == s
  {
  }

  /** Corrected: without an armed link, or on the armed source itself, a click
      only selects. */
  lemma NodeClickOtherwiseSelects(s: AppState, nodeId: string, prompt: Option<string>)
    requires s.linkMode.None? || nodeId == s.linkMode.value.fromId || nodeId == ""
    ensures NodeClick(s, nodeId, prompt) == SelectNode(s, nodeId)
  {
  }
}
