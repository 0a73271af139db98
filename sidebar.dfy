/** The bubble-to-members grouping of `buildSidebars`: every known bubble gets a
    list, a node is pushed onto the list of each bubble id it names (once per
    occurrence, unknown ids ignored), and a node that names no bubble goes to
    the unassigned bucket. */
module Sidebar {
  import opened Graph

  /** Number of occurrences of `b` in `ids`. */
  function Count(ids: seq<string>, b: string): (n: nat)
    ensures n > 0 <==> b in ids
  {
    if |ids| == 0 then 0
    else Count(ids[..|ids| - 1], b) + (if ids[|ids| - 1] == b then 1 else 0)
  }

  function Repeat(n: Node, k: nat): seq<Node> {
    if k == 0 then [] else Repeat(n, k - 1) + [n]
  }

  /** The list that bucket `b` holds after the grouping loop. */
  function MembersOf(nodes: seq<Node>, b: string): seq<Node> {
    if |nodes| == 0 then []
    else
      var n := nodes[|nodes| - 1];
      MembersOf(nodes[..|nodes| - 1], b) + Repeat(n, Count(n.bubbles, b))
  }

  /** The nodes, in order, that name no bubble. */
  function Unassigned(nodes: seq<Node>): seq<Node> {
    if |nodes| == 0 then []
    else
      var n := nodes[|nodes| - 1];
      Unassigned(nodes[..|nodes| - 1]) + (if |n.bubbles| == 0 then [n] else [])
  }

  function KnownIds(bubbles: seq<Bubble>): set<string> {
    set b | b in bubbles :: b.id
  }

  /** `bubbleMap[b.id] = []` for every bubble. */
  method EmptyBubbleMap(bubbles: seq<Bubble>) returns (bubbleMap: map<string, seq<Node>>)
    ensures bubbleMap.Keys == KnownIds(bubbles)
    ensures forall b :: b in bubbleMap ==> bubbleMap[b] == []
  {
    bubbleMap := map[];
    var i := 0;
    while i < |bubbles|
      invariant 0 <= i <= |bubbles|
      invariant bubbleMap.Keys == KnownIds(bubbles[..i])
      invariant forall b :: b in bubbleMap ==> bubbleMap[b] == []
    {
      assert bubbles[..i + 1] == bubbles[..i] + [bubbles[i]];
      bubbleMap := bubbleMap[bubbles[i].id := []];
      i := i + 1;
    }
    assert bubbles[..i] == bubbles;
  }

  /** `node.bubbles.forEach(bid => { if (bubbleMap[bid]) bubbleMap[bid].push(node); })`:
      bucket `b` gains one copy of `node` per occurrence of `b`, when `b` is known. */
  method PushMember(bubbleMap: map<string, seq<Node>>, node: Node) returns (pushed: map<string, seq<Node>>)
    ensures pushed.Keys == bubbleMap.Keys
    ensures forall b :: b in pushed ==> pushed[b] == bubbleMap[b] + Repeat(node, Count(node.bubbles, b))
  {
    pushed := bubbleMap;
    var j := 0;
    while j < |node.bubbles|
      invariant 0 <= j <= |node.bubbles|
      invariant pushed.Keys == bubbleMap.Keys
      invariant forall b :: b in pushed ==> pushed[b] == bubbleMap[b] + Repeat(node, Count(node.bubbles[..j], b))
    {
      var bid := node.bubbles[j];
      assert node.bubbles[..j + 1][..j] == node.bubbles[..j];
      if bid in pushed {
        pushed := pushed[bid := pushed[bid] + [node]];
      }
      j := j + 1;
    }
    assert node.bubbles[..j] == node.bubbles;
  }

  /** Lines 154-168: the `bubbleMap` and `unassigned` that the folders are built from. */
  method BuildBubbleMap(bubbles: seq<Bubble>, nodes: seq<Node>)
    returns (bubbleMap: map<string, seq<Node>>, unassigned: seq<Node>)
    ensures bubbleMap.Keys == KnownIds(bubbles)
    ensures forall b :: b in bubbleMap ==> bubbleMap[b] == MembersOf(nodes, b)
    ensures unassigned == Unassigned(nodes)
  {
    bubbleMap := EmptyBubbleMap(bubbles);
    unassigned := [];
    var i := 0;
    while i < |nodes|
      invariant 0 <= i <= |nodes|
      invariant bubbleMap.Keys == KnownIds(bubbles)
      invariant forall b :: b in bubbleMap ==> bubbleMap[b] == MembersOf(nodes[..i], b)
      invariant unassigned == Unassigned(nodes[..i])
    {
      var node := nodes[i];
      assert nodes[..i + 1][..i] == nodes[..i];
      if |node.bubbles| > 0 {
        bubbleMap := PushMember(bubbleMap, node);
      } else {
        unassigned := unassigned + [node];
      }
      i := i + 1;
    }
    assert nodes[..i] == nodes;
  }

  lemma {:induction false} RepeatMembership(n: Node, k: nat, m: Node)
    ensures m in Repeat(n, k) <==> k > 0 && m == n
  {
    if k > 0 { RepeatMembership(n, k - 1, m); }
  }

  /** A node is in bucket `b` exactly when it is one of the nodes and names `b`. */
  lemma {:induction false} MembersOfMembership(nodes: seq<Node>, b: string, m: Node)
    ensures m in MembersOf(nodes, b) <==> m in nodes && b in m.bubbles
  {
    if |nodes| > 0 {
      var init, last := nodes[..|nodes| - 1], nodes[|nodes| - 1];
      MembersOfMembership(init, b, m);
      RepeatMembership(last, Count(last.bubbles, b), m);
      assert nodes == init + [last];
    }
  }

  /** The grouping goes node by node, so each bucket keeps the node order; a
      single node contributes one copy per occurrence of `b` in its list. */
  lemma {:induction false} MembersOfAppend(a: seq<Node>, c: seq<Node>, b: string)
    ensures MembersOf(a + c, b) == MembersOf(a, b) + MembersOf(c, b)
  {
    if |c| == 0 {
      assert a + c == a;
    } else {
      var init := c[..|c| - 1];
      assert (a + c)[..|a + c| - 1] == a + init;
      MembersOfAppend(a, init, b);
    }
  }

  lemma MembersOfSingle(n: Node, b: string)
    ensures |MembersOf([n], b)| == Count(n.bubbles, b)
    ensures forall k :: 0 <= k < |MembersOf([n], b)| ==> MembersOf([n], b)[k] == n
  {
    RepeatShape(n, Count(n.bubbles, b));
  }

  lemma {:induction false} RepeatShape(n: Node, k: nat)
    ensures |Repeat(n, k)| == k
    ensures forall i :: 0 <= i < k ==> Repeat(n, k)[i] == n
  {
    if k > 0 { RepeatShape(n, k - 1); }
  }

  /** The unassigned bucket holds exactly the nodes with an empty bubble list. */
  lemma {:induction false} UnassignedMembership(nodes: seq<Node>, m: Node)
    ensures m in Unassigned(nodes) <==> m in nodes && |m.bubbles| == 0
  {
    if |nodes| > 0 {
      var init := nodes[..|nodes| - 1];
      UnassignedMembership(init, m);
      assert nodes == init + [nodes[|nodes| - 1]];
    }
  }

  /** A node that names only unknown bubbles is listed nowhere: in no folder and
      not in the unassigned bucket. */
  lemma NodeWithOnlyUnknownBubblesIsUnlisted(bubbles: seq<Bubble>, nodes: seq<Node>, m: Node)
    requires |m.bubbles| > 0
    requires forall i :: 0 <= i < |m.bubbles| ==> m.bubbles[i] !in KnownIds(bubbles)
    ensures forall b :: b in KnownIds(bubbles) ==> m !in MembersOf(nodes, b)
    ensures m !in Unassigned(nodes)
  {
    UnassignedMembership(nodes, m);
    forall b | b in KnownIds(bubbles) ensures m !in MembersOf(nodes, b) {
      MembersOfMembership(nodes, b, m);
    }
  }
}
