/** The tree of items a browse gives, described without the walk that makes it. */
module BrowserItems {
  import opened Browser

  /** One item for each reference, in order, each with the reference's name, id and class and with its depth. */
  predicate ItemsOf(g: AddressSpace, id: NodeId, items: seq<Item>, depth: int)
    decreases items, 1
  {
    if id !in g then items == []
    else
      && |items| == |g[id]|
      && forall i :: 0 <= i < |items| ==> ItemOfReference(g, items[i], g[id][i], depth)
  }

  /** Only a followed reference has children: none, or the items of its own node, one level deeper. */
  predicate ItemOfReference(g: AddressSpace, item: Item, r: Reference, depth: int)
    decreases item, 0
  {
    && item.browseName == r.browseName && item.nodeId == r.nodeId && item.nodeClass == r.nodeClass
    && item.depth == depth
    && (item.children == [] || (Followed(r) && ItemsOf(g, item.nodeId, item.children, depth + 1)))
  }

  /** The nodes whose references appear as children, in preorder. */
  function Expanded(items: seq<Item>): seq<NodeId> {
    if items == [] then []
    else
      (if items[0].children == [] then [] else [items[0].nodeId] + Expanded(items[0].children))
      + Expanded(items[1..])
  }

  predicate HasReferences(g: AddressSpace, id: NodeId) {
    id in g && g[id] != []
  }

  /** The nodes among these that are there and have references. */
  function WithReferences(g: AddressSpace, ids: seq<NodeId>): seq<NodeId> {
    if ids == [] then []
    else (if HasReferences(g, ids[0]) then [ids[0]] else []) + WithReferences(g, ids[1..])
  }

  /** The items of a walk belong to the node, and expand exactly the browsed nodes that have references. */
  predicate Describes(g: AddressSpace, w: Walked, refs: seq<Reference>, depth: int) {
    && |w.items| == |refs|
    && (forall i :: 0 <= i < |refs| ==> ItemOfReference(g, w.items[i], refs[i], depth))
    && Expanded(w.items) == WithReferences(g, w.calls)
  }

  lemma {:induction false} WithReferencesOfConcat(g: AddressSpace, a: seq<NodeId>, b: seq<NodeId>)
    ensures WithReferences(g, a + b) == WithReferences(g, a) + WithReferences(g, b)
  {
    if a == [] {
      assert a + b == b;
    } else {
      assert (a + b)[1..] == a[1..] + b;
      WithReferencesOfConcat(g, a[1..], b);
    }
  }

  lemma {:induction false} ExpandedOfConcat(a: seq<Item>, b: seq<Item>)
    ensures Expanded(a + b) == Expanded(a) + Expanded(b)
  {
    if a == [] {
      assert a + b == b;
    } else {
      assert (a + b)[1..] == a[1..] + b;
      ExpandedOfConcat(a[1..], b);
    }
  }

  /**
   The answer of a browse: the items of the node it was asked for, nested; the nodes whose references are
   shown below are, in preorder, the nodes browsed below, except those that are not there or have none.
   */
  lemma {:induction false} BrowseGivesTheTree(
      g: AddressSpace, id: NodeId, maxDepth: int, depth: int, visited: set<NodeId>)
    ensures var w := Walk(g, id, maxDepth, depth, visited);
            if depth >= maxDepth then w.items == []
            else
              && ItemsOf(g, id, w.items, depth)
              && w.calls != [] && Expanded(w.items) == WithReferences(g, w.calls[1..])
    decreases maxDepth - depth, 1, 0
  {
    if depth < maxDepth && id in g {
      ReferencesGiveTheItems(g, g[id], maxDepth, depth, visited);
    }
  }

  lemma {:induction false} ReferencesGiveTheItems(
      g: AddressSpace, refs: seq<Reference>, maxDepth: int, depth: int, visited: set<NodeId>)
    requires depth < maxDepth
    ensures Describes(g, WalkReferences(g, refs, maxDepth, depth, visited), refs, depth)
    decreases maxDepth - depth, 0, |refs|
  {
    hide ItemOfReference, WalkReference, Followed;
    if refs != [] {
      var w := WalkReference(g, refs[0], maxDepth, depth, visited);
      ReferenceGivesTheItem(g, refs[0], maxDepth, depth, visited);
      ReferencesGiveTheItems(g, refs[1..], maxDepth, depth, w.visited);
      var rest := WalkReferences(g, refs[1..], maxDepth, depth, w.visited);
      ExpandedOfConcat(w.items, rest.items);
      WithReferencesOfConcat(g, w.calls, rest.calls);
      assert refs == [refs[0]] + refs[1..];
    }
  }

  lemma {:induction false} ReferenceGivesTheItem(
      g: AddressSpace, r: Reference, maxDepth: int, depth: int, visited: set<NodeId>)
    requires depth < maxDepth
    ensures Describes(g, WalkReference(g, r, maxDepth, depth, visited), [r], depth)
    decreases maxDepth - depth, 0, 0
  {
    hide Followed;
    ExpandedOne(WalkReference(g, r, maxDepth, depth, visited).items[0]);
    if Followed(r) && r.nodeId !in visited {
      var w := Walk(g, r.nodeId, maxDepth, depth + 1, visited + {r.nodeId});
      BrowseGivesTheTree(g, r.nodeId, maxDepth, depth + 1, visited + {r.nodeId});
      if depth + 1 < maxDepth {
        ItemsThere(g, r.nodeId, w.items, depth + 1);
      }
      hide ItemsOf;
      if depth + 1 < maxDepth && !HasReferences(g, r.nodeId) {
        assert w.calls == [r.nodeId];
      }
    }
  }

  lemma ItemsThere(g: AddressSpace, id: NodeId, items: seq<Item>, depth: int)
    requires ItemsOf(g, id, items, depth)
    ensures items != [] <==> HasReferences(g, id)
  {
  }

  lemma ExpandedOne(item: Item)
    ensures Expanded([item]) == if item.children == [] then [] else [item.nodeId] + Expanded(item.children)
  {
    assert [item][1..] == [];
  }

  /** Every expanded node was browsed, so none is expanded twice. */
  lemma {:induction false} WithReferencesNoRepeats(g: AddressSpace, ids: seq<NodeId>)
    requires NoRepeats(ids)
    ensures NoRepeats(WithReferences(g, ids))
    ensures forall x :: x in WithReferences(g, ids) <==> x in ids && HasReferences(g, x)
  {
    if ids != [] {
      var tail := ids[1..];
      assert forall i :: 0 <= i < |tail| ==> tail[i] == ids[i + 1];
      WithReferencesNoRepeats(g, tail);
      assert ids[0] !in tail;
      assert ids == [ids[0]] + tail;
    }
  }

  /** No node's references are shown twice, the start's own list at the top not counted. */
  lemma NoNodeExpandedTwice(g: AddressSpace, start: NodeId, maxDepth: int)
    requires maxDepth > 0
    ensures var w := Walk(g, start, maxDepth, 0, {});
            && NoRepeats(Expanded(w.items))
            && forall x :: x in Expanded(w.items) <==> x in w.calls[1..] && HasReferences(g, x)
  {
    hide Walk;
    NoNodeTwice(g, start, maxDepth);
    BrowseGivesTheTree(g, start, maxDepth, 0, {});
    WithReferencesNoRepeats(g, Walk(g, start, maxDepth, 0, {}).calls[1..]);
  }

  // ----- which references a browse follows

  /** Below the start, only what a forward reference to an Object or a Variable names is browsed. */
  lemma BrowsedThroughAReference(g: AddressSpace, start: NodeId, maxDepth: int, c: NodeId)
    requires maxDepth > 0 && c in Walk(g, start, maxDepth, 0, {}).calls[1..]
    ensures exists n, i :: n in g && 0 <= i < |g[n]| && g[n][i].nodeId == c != "" && g[n][i].isForward
                           && g[n][i].nodeClass in {ObjectNode, VariableNode}
  {
    hide Walk, Reachable;
    NoNodeTwice(g, start, maxDepth);
    assert c in Targets(g);
  }

  /** With room for all that can be reached, every such reference of a browsed node is followed. */
  lemma ForwardReferencesAreFollowed(g: AddressSpace, start: NodeId, maxDepth: int, n: NodeId, r: Reference)
    requires maxDepth > |ReachableTargets(g, start)|
    requires n in g && n in Walk(g, start, maxDepth, 0, {}).calls && r in g[n]
    requires r.isForward && r.nodeId != "" && r.nodeClass in {ObjectNode, VariableNode}
    ensures r.nodeId in Walk(g, start, maxDepth, 0, {}).calls
  {
    BrowsesExactlyTheReachable(g, start, maxDepth, n);
    BrowsesExactlyTheReachable(g, start, maxDepth, r.nodeId);
    hide Walk, Reachable;
    var i :| 0 <= i < |g[n]| && g[n][i] == r;
    assert Edge(g, n, r.nodeId);
    OneMoreEdge(g, start, n, r.nodeId);
  }
}
