/** Read-only views the renderer computes from `nodes` and `links`: the link
    lines of `rebuildLinks`, the link sentences of `buildTextMap` and the
    "Linked nodes" list of `selectNode`. Every view skips a link whose endpoint
    does not resolve to a node. */
module Projections {
  import opened Graph

  /** Offset from a node's stored position to the anchor its lines attach to. */
  const AnchorDX: real := 100.0
  const AnchorDY: real := 30.0

  /** Separator of a link sentence, kept exactly as the source file stores it
      (the UTF-8 bytes of a right arrow read back as three characters). */
  const SentenceArrow: string := " \U{00E2}\U{2020}\U{2019} "

  /** One SVG line of the link layer, in world coordinates. */
  datatype Line = Line(fromId: string, toId: string, x1: real, y1: real, x2: real, y2: real)

  /** Both endpoints of `l` resolve. */
  predicate Resolves(nodes: seq<Node>, l: Link) {
    FindNode(nodes, l.from).Some? && FindNode(nodes, l.to).Some?
  }

  /** The links, in order, whose endpoints both resolve. */
  function ResolvedLinks(nodes: seq<Node>, links: seq<Link>): seq<Link> {
    if |links| == 0 then []
    else
      var l := links[|links| - 1];
      ResolvedLinks(nodes, links[..|links| - 1]) + (if Resolves(nodes, l) then [l] else [])
  }

  function LineBetween(from: Node, to: Node): Line {
    Line(from.id, to.id, from.x + AnchorDX, from.y + AnchorDY, to.x + AnchorDX, to.y + AnchorDY)
  }

  /** `rebuildLinks`: one line per link, skipping dangling links. */
  function LinkLines(nodes: seq<Node>, links: seq<Link>): seq<Line> {
    if |links| == 0 then []
    else
      var prev := LinkLines(nodes, links[..|links| - 1]);
      var l := links[|links| - 1];
      match (FindNode(nodes, l.from), FindNode(nodes, l.to))
      case (Some(f), Some(t)) => prev + [LineBetween(f, t)]
      case _ => prev
  }

  function Sentence(fromTitle: string, toTitle: string, caption: string): string {
    fromTitle + SentenceArrow + toTitle + " (" + caption + ")."
  }

  /** The "Node links" section of `buildTextMap`: one sentence per link,
      skipping dangling links. */
  function LinkSentences(nodes: seq<Node>, links: seq<Link>): seq<string> {
    if |links| == 0 then []
    else
      var prev := LinkSentences(nodes, links[..|links| - 1]);
      var l := links[|links| - 1];
      match (FindNode(nodes, l.from), FindNode(nodes, l.to))
      case (Some(f), Some(t)) => prev + [Sentence(f.title, t.title, l.caption)]
      case _ => prev
  }

  /** A link kept by the filter is in the input and resolves at both ends, and
      every such link is kept. */
  lemma {:induction false} ResolvedLinksMembership(nodes: seq<Node>, links: seq<Link>, l: Link)
    ensures l in ResolvedLinks(nodes, links) <==> l in links && HasNode(nodes, l.from) && HasNode(nodes, l.to)
  {
    if |links| > 0 {
      var init := links[..|links| - 1];
      ResolvedLinksMembership(nodes, init, l);
      assert links == init + [links[|links| - 1]];
    }
  }

  /** The filter works link by link, so it keeps the original order. */
  lemma {:induction false} ResolvedLinksAppend(nodes: seq<Node>, a: seq<Link>, b: seq<Link>)
    ensures ResolvedLinks(nodes, a + b) == ResolvedLinks(nodes, a) + ResolvedLinks(nodes, b)
  {
    if |b| == 0 {
      assert a + b == a;
    } else {
      var init := b[..|b| - 1];
      assert (a + b)[..|a + b| - 1] == a + init;
      ResolvedLinksAppend(nodes, a, init);
    }
  }

  /** No link dangles. */
  predicate AllResolve(nodes: seq<Node>, links: seq<Link>) {
    forall k :: 0 <= k < |links| ==> Resolves(nodes, links[k])
  }

  lemma AllResolveSnoc(nodes: seq<Node>, init: seq<Link>, last: Link)
    ensures AllResolve(nodes, init + [last]) <==> AllResolve(nodes, init) && Resolves(nodes, last)
  {
    var links := init + [last];
    if AllResolve(nodes, init) && Resolves(nodes, last) {
      forall k | 0 <= k < |links| ensures Resolves(nodes, links[k]) {
        if k < |init| { assert links[k] == init[k]; }
      }
    }
    if AllResolve(nodes, links) {
      forall k | 0 <= k < |init| ensures Resolves(nodes, init[k]) {
        assert links[k] == init[k];
      }
      assert links[|init|] == last;
    }
  }

  /** Filtering never adds links, and drops none exactly when no link dangles. */
  lemma {:induction false} ResolvedLinksBound(nodes: seq<Node>, links: seq<Link>)
    ensures |ResolvedLinks(nodes, links)| <= |links|
    ensures |ResolvedLinks(nodes, links)| == |links| <==> AllResolve(nodes, links)
  {
    if |links| > 0 {
      var n := |links| - 1;
      var init, last := links[..n], links[n];
      ResolvedLinksBound(nodes, init);
      assert links == init + [last];
      AllResolveSnoc(nodes, init, last);
    }
  }

  /** The line set is the resolved links, in order, each drawn between the two
      nodes' positions shifted by (100, 30). */
  lemma {:induction false} LinkLinesFollowResolved(nodes: seq<Node>, links: seq<Link>)
    ensures |LinkLines(nodes, links)| == |ResolvedLinks(nodes, links)|
    ensures forall k :: 0 <= k < |LinkLines(nodes, links)| ==>
      var l, line := ResolvedLinks(nodes, links)[k], LinkLines(nodes, links)[k];
      && FindNode(nodes, l.from).Some? && FindNode(nodes, l.to).Some?
      && line.fromId == l.from && line.toId == l.to
      && line.x1 == FindNode(nodes, l.from).value.x + 100.0
      && line.y1 == FindNode(nodes, l.from).value.y + 30.0
      && line.x2 == FindNode(nodes, l.to).value.x + 100.0
      && line.y2 == FindNode(nodes, l.to).value.y + 30.0
  {
    if |links| > 0 {
      LinkLinesFollowResolved(nodes, links[..|links| - 1]);
    }
  }

  /** The text map has one sentence per resolved link, in order, naming both
      nodes' titles and the link's label. */
  lemma {:induction false} LinkSentencesFollowResolved(nodes: seq<Node>, links: seq<Link>)
    ensures |LinkSentences(nodes, links)| == |ResolvedLinks(nodes, links)|
    ensures forall k :: 0 <= k < |LinkSentences(nodes, links)| ==>
      var l := ResolvedLinks(nodes, links)[k];
      && FindNode(nodes, l.from).Some? && FindNode(nodes, l.to).Some?
      && LinkSentences(nodes, links)[k]
         == FindNode(nodes, l.from).value.title + SentenceArrow + FindNode(nodes, l.to).value.title
            + " (" + l.caption + ")."
  {
    if |links| > 0 {
      LinkSentencesFollowResolved(nodes, links[..|links| - 1]);
    }
  }

  /** One entry of the "Linked nodes" list: the target's id and the text shown. */
  datatype LinkItem = LinkItem(targetId: string, text: string)

  /** The detail panel of `selectNode`: title, raw content and, when the node has
      outbound links at all, the "Linked nodes" section. */
  datatype Detail = Detail(title: string, contentHtml: string, linkedNodes: Option<seq<LinkItem>>)

  /** `state.links.filter(link => link.from === id)`. */
  function Outbound(links: seq<Link>, id: string): seq<Link> {
    if |links| == 0 then []
    else
      var l := links[|links| - 1];
      Outbound(links[..|links| - 1], id) + (if l.from == id then [l] else [])
  }

  /** The entry for a link to `target`: `link.label || target.title`. */
  function ItemFor(l: Link, target: Node): LinkItem {
    LinkItem(target.id, if l.caption != "" then l.caption else target.title)
  }

  /** The filter works link by link, so the related links keep their order. */
  lemma {:induction false} OutboundAppend(a: seq<Link>, b: seq<Link>, id: string)
    ensures Outbound(a + b, id) == Outbound(a, id) + Outbound(b, id)
  {
    if |b| == 0 {
      assert a + b == a;
    } else {
      var init := b[..|b| - 1];
      assert (a + b)[..|a + b| - 1] == a + init;
      assert (a + b)[|a + b| - 1] == b[|b| - 1];
      OutboundAppend(a, init, id);
    }
  }

  /** The entries for `related`; a link whose target is missing renders as
      nothing. */
  function LinkedItems(nodes: seq<Node>, related: seq<Link>): seq<LinkItem> {
    if |related| == 0 then []
    else
      var l := related[|related| - 1];
      LinkedItems(nodes, related[..|related| - 1]) +
        match FindNode(nodes, l.to)
        case None => []
        case Some(t) => [ItemFor(l, t)]
  }

  /** What `selectNode(id)` shows, or `None` when `id` does not resolve. */
  function DetailPanel(nodes: seq<Node>, links: seq<Link>, id: string): Option<Detail> {
    match FindNode(nodes, id)
    case None => None
    case Some(n) =>
      var related := Outbound(links, n.id);
      Some(Detail(n.title, n.contentHtml,
                  if |related| > 0 then Some(LinkedItems(nodes, related)) else None))
  }

  lemma {:induction false} OutboundMembership(links: seq<Link>, id: string, l: Link)
    ensures l in Outbound(links, id) <==> l in links && l.from == id
  {
    if |links| > 0 {
      var init := links[..|links| - 1];
      OutboundMembership(init, id, l);
      assert links == init + [links[|links| - 1]];
    }
  }

  lemma {:induction false} LinkedItemsMembership(nodes: seq<Node>, related: seq<Link>, it: LinkItem)
    ensures it in LinkedItems(nodes, related) <==>
      exists l :: l in related && FindNode(nodes, l.to).Some? && it == ItemFor(l, FindNode(nodes, l.to).value)
  {
    if |related| > 0 {
      var init := related[..|related| - 1];
      var last := related[|related| - 1];
      LinkedItemsMembership(nodes, init, it);
      assert related == init + [last];
      if it in LinkedItems(nodes, related) && it !in LinkedItems(nodes, init) {
        assert FindNode(nodes, last.to).Some? && it == ItemFor(last, FindNode(nodes, last.to).value);
      }
    }
  }

  /** The links, in order, whose target resolves. */
  function TargetResolved(nodes: seq<Node>, related: seq<Link>): seq<Link> {
    if |related| == 0 then []
    else
      var l := related[|related| - 1];
      TargetResolved(nodes, related[..|related| - 1]) + (if FindNode(nodes, l.to).Some? then [l] else [])
  }

  /** Dropping links with a missing target works link by link, so the order
      is kept. */
  lemma {:induction false} TargetResolvedAppend(nodes: seq<Node>, a: seq<Link>, b: seq<Link>)
    ensures TargetResolved(nodes, a + b) == TargetResolved(nodes, a) + TargetResolved(nodes, b)
  {
    if |b| == 0 {
      assert a + b == a;
    } else {
      var init := b[..|b| - 1];
      assert (a + b)[..|a + b| - 1] == a + init;
      assert (a + b)[|a + b| - 1] == b[|b| - 1];
      TargetResolvedAppend(nodes, a, init);
    }
  }

  /** The entries are built link by link, so they follow the order of the
      related links. */
  lemma {:induction false} LinkedItemsAppend(nodes: seq<Node>, a: seq<Link>, b: seq<Link>)
    ensures LinkedItems(nodes, a + b) == LinkedItems(nodes, a) + LinkedItems(nodes, b)
  {
    if |b| == 0 {
      assert a + b == a;
    } else {
      var init := b[..|b| - 1];
      assert (a + b)[..|a + b| - 1] == a + init;
      assert (a + b)[|a + b| - 1] == b[|b| - 1];
      LinkedItemsAppend(nodes, a, init);
    }
  }

  /** One entry per related link whose target resolves, in order (duplicate
      links give duplicate entries), each showing `label || target.title`. */
  lemma {:induction false} LinkedItemsFollowTargets(nodes: seq<Node>, related: seq<Link>)
    ensures |LinkedItems(nodes, related)| == |TargetResolved(nodes, related)|
    ensures forall k :: 0 <= k < |LinkedItems(nodes, related)| ==>
      var l := TargetResolved(nodes, related)[k];
      && FindNode(nodes, l.to).Some?
      && LinkedItems(nodes, related)[k] == ItemFor(l, FindNode(nodes, l.to).value)
  {
    if |related| > 0 {
      LinkedItemsFollowTargets(nodes, related[..|related| - 1]);
    }
  }

  /** The "Linked nodes" list of a resolving node holds exactly one entry per
      outbound link whose target resolves, labelled by the link's label or, when
      that is empty, by the target's title; the section is present exactly when
      the node has an outbound link, dangling or not. */
  lemma DetailListsOutboundResolved(nodes: seq<Node>, links: seq<Link>, id: string, it: LinkItem)
    requires HasNode(nodes, id)
    ensures DetailPanel(nodes, links, id).Some?
    ensures DetailPanel(nodes, links, id).value.linkedNodes.Some? <==> exists l :: l in links && l.from == id
    ensures DetailPanel(nodes, links, id).value.linkedNodes.Some? ==>
      (it in DetailPanel(nodes, links, id).value.linkedNodes.value <==>
        exists l :: l in links && l.from == id && FindNode(nodes, l.to).Some?
                    && it == ItemFor(l, FindNode(nodes, l.to).value))
  {
    var related := Outbound(links, id);
    LinkedItemsMembership(nodes, related, it);
    forall l ensures l in related <==> l in links && l.from == id {
      OutboundMembership(links, id, l);
    }
    if exists l :: l in links && l.from == id {
      var l :| l in links && l.from == id;
      assert l in related;
    }
  }

  /** The "Linked nodes" entries follow the outbound links in order, one per
      link whose target resolves, counting duplicate links separately. */
  lemma DetailListsInOrder(nodes: seq<Node>, links: seq<Link>, id: string)
    requires HasNode(nodes, id)
    ensures DetailPanel(nodes, links, id).Some?
    ensures var d := DetailPanel(nodes, links, id).value;
      var targets := TargetResolved(nodes, Outbound(links, id));
      d.linkedNodes.Some? ==>
        && |d.linkedNodes.value| == |targets|
        && forall k :: 0 <= k < |targets| ==>
             targets[k].from == id && FindNode(nodes, targets[k].to).Some?
             && d.linkedNodes.value[k] == ItemFor(targets[k], FindNode(nodes, targets[k].to).value)
  {
    var related := Outbound(links, id);
    LinkedItemsFollowTargets(nodes, related);
    var targets := TargetResolved(nodes, related);
    forall k | 0 <= k < |targets| ensures targets[k].from == id {
      TargetResolvedMembership(nodes, related, targets[k]);
      OutboundMembership(links, id, targets[k]);
    }
  }

  lemma {:induction false} TargetResolvedMembership(nodes: seq<Node>, related: seq<Link>, l: Link)
    ensures l in TargetResolved(nodes, related) <==> l in related && FindNode(nodes, l.to).Some?
  {
    if |related| > 0 {
      var init := related[..|related| - 1];
      TargetResolvedMembership(nodes, init, l);
      assert related == init + [related[|related| - 1]];
    }
  }
}
