/** Where depth is distance: when no node is led to twice, the walk browses exactly the nodes near the start. */
module BrowserTree {
  import opened Browser

  predicate DistinctTargets(refs: seq<Reference>) {
    forall i, j :: 0 <= i < j < |refs| && Followed(refs[i]) && Followed(refs[j]) ==> refs[i].nodeId != refs[j].nodeId
  }

  /** Every node is led to by at most one followed reference, and the start by none. */
  ghost predicate Tree(g: AddressSpace, start: NodeId) {
    && (forall n :: !Edge(g, n, start))
    && (forall n, m, v :: Edge(g, n, v) && Edge(g, m, v) ==> n == m)
    && (forall n :: n in g ==> DistinctTargets(g[n]))
  }

  ghost predicate LedTo(g: AddressSpace, v: NodeId, sources: set<NodeId>) {
    exists n :: n in sources && Edge(g, n, v)
  }

  /** Each of these nodes is led to from one of those. */
  ghost predicate AllLedTo(g: AddressSpace, nodes: set<NodeId>, sources: set<NodeId>) {
    forall v :: v in nodes ==> LedTo(g, v, sources)
  }

  /** The node can be reached over fewer than `room` followed references. */
  ghost predicate Within(g: AddressSpace, id: NodeId, x: NodeId, room: int)
    decreases room
  {
    room > 0 && (x == id || exists t :: Edge(g, id, t) && Within(g, t, x, room - 1))
  }

  ghost predicate WithinFrom(g: AddressSpace, refs: seq<Reference>, x: NodeId, room: int) {
    exists r :: r in refs && Followed(r) && Within(g, r.nodeId, x, room)
  }

  /** What the walk may rely on: the visited nodes hang together, and what is to be walked is not among them. */
  ghost predicate Ready(g: AddressSpace, start: NodeId, id: NodeId, visited: set<NodeId>) {
    Tree(g, start) && start !in visited && (id == start || id in visited) && AllLedTo(g, visited, visited + {start})
  }

  /** What it gives: the nodes that become visited are led to from `id` or from each other. */
  ghost predicate Grown(g: AddressSpace, start: NodeId, id: NodeId, before: set<NodeId>, after: set<NodeId>) {
    before <= after && start !in after && AllLedTo(g, after - before, after - before + {id})
  }

  predicate NoneVisited(refs: seq<Reference>, visited: set<NodeId>) {
    forall r :: r in refs && Followed(r) ==> r.nodeId !in visited
  }

  lemma EdgeOf(g: AddressSpace, id: NodeId, i: nat)
    requires id in g && i < |g[id]| && Followed(g[id][i])
    ensures Edge(g, id, g[id][i].nodeId)
  {
  }

  /** With one reference to each node, a node led to from some of these is led to from nowhere else. */
  lemma OnlySource(g: AddressSpace, start: NodeId, n: NodeId, v: NodeId, nodes: set<NodeId>, sources: set<NodeId>)
    requires Tree(g, start) && Edge(g, n, v) && AllLedTo(g, nodes, sources)
    ensures v in nodes ==> n in sources
  {
    if v in nodes {
      assert LedTo(g, v, sources);
    }
  }

  /** Going on to a node led to for the first time: it is ready, and nothing it leads to is visited. */
  lemma ChildReady(g: AddressSpace, start: NodeId, id: NodeId, t: NodeId, visited: set<NodeId>)
    requires Ready(g, start, id, visited) && Edge(g, id, t) && t !in visited
    ensures Ready(g, start, t, visited + {t})
    ensures t in g ==> NoneVisited(g[t], visited + {t})
  {
    var more := visited + {t};
    assert LedTo(g, t, more + {start});
    forall v | v in visited
      ensures LedTo(g, v, more + {start})
    {
      assert LedTo(g, v, visited + {start});
      var n :| n in visited + {start} && Edge(g, n, v);
    }
    if t in g {
      forall r | r in g[t] && Followed(r)
        ensures r.nodeId !in more
      {
        var i :| 0 <= i < |g[t]| && g[t][i] == r;
        EdgeOf(g, t, i);
        OnlySource(g, start, t, r.nodeId, visited, visited + {start});
      }
    }
  }

  /** After a child has been walked, `id` is ready to go on, and its later targets are still not visited. */
  lemma NextReady(g: AddressSpace, start: NodeId, id: NodeId, i: nat, before: set<NodeId>, after: set<NodeId>)
    requires Ready(g, start, id, before) && id in g && i < |g[id]| && Followed(g[id][i])
    requires NoneVisited(g[id][i..], before)
    requires Grown(g, start, g[id][i].nodeId, before + {g[id][i].nodeId}, after)
    ensures Ready(g, start, id, after) && NoneVisited(g[id][i + 1..], after)
    ensures Grown(g, start, id, before, after)
  {
    var t := g[id][i].nodeId;
    var added := after - (before + {t});
    EdgeOf(g, id, i);
    assert g[id][i..][0] == g[id][i];
    forall v | v in after - before
      ensures LedTo(g, v, after - before + {id}) && LedTo(g, v, after + {start})
    {
      if v == t {
        assert id in after + {start};
      } else {
        assert LedTo(g, v, added + {t});
        var n :| n in added + {t} && Edge(g, n, v);
        assert n in after - before;
      }
    }
    forall v | v in before
      ensures LedTo(g, v, after + {start})
    {
      assert LedTo(g, v, before + {start});
      var n :| n in before + {start} && Edge(g, n, v);
    }
    forall r | r in g[id][i + 1..] && Followed(r)
      ensures r.nodeId !in after
    {
      var j :| 0 <= j < |g[id]| - i - 1 && g[id][i + 1..][j] == r;
      assert g[id][i + 1 + j] == r && g[id][i..][j + 1] == r;
      EdgeOf(g, id, i + 1 + j);
      assert DistinctTargets(g[id]);
      OnlySource(g, start, id, r.nodeId, added, added + {t});
    }
  }

  lemma GrownTwice(g: AddressSpace, start: NodeId, id: NodeId, a: set<NodeId>, b: set<NodeId>, c: set<NodeId>)
    requires Grown(g, start, id, a, b) && Grown(g, start, id, b, c)
    ensures Grown(g, start, id, a, c)
  {
    forall v | v in c - a
      ensures LedTo(g, v, c - a + {id})
    {
      if v in b {
        assert LedTo(g, v, b - a + {id});
        var n :| n in b - a + {id} && Edge(g, n, v);
        assert n in c - a + {id};
      } else {
        assert LedTo(g, v, c - b + {id});
        var n :| n in c - b + {id} && Edge(g, n, v);
        assert n in c - a + {id};
      }
    }
  }

  lemma {:induction false} TreeWalk(
      g: AddressSpace, start: NodeId, id: NodeId, maxDepth: int, depth: int, visited: set<NodeId>)
    requires Ready(g, start, id, visited) && (id in g ==> NoneVisited(g[id], visited))
    ensures var w := Walk(g, id, maxDepth, depth, visited);
            && Grown(g, start, id, visited, w.visited)
            && forall x :: x in w.calls <==> Within(g, id, x, maxDepth - depth)
    decreases maxDepth - depth, 1, 0
  {
    if depth < maxDepth {
      if id in g {
        assert g[id][0..] == g[id];
        TreeReferences(g, start, id, 0, maxDepth, depth, visited);
      }
      forall x
        ensures x in Walk(g, id, maxDepth, depth, visited).calls <==> Within(g, id, x, maxDepth - depth)
      {
        WithinByReferences(g, id, x, maxDepth - depth);
      }
    }
  }

  lemma WithinByReferences(g: AddressSpace, id: NodeId, x: NodeId, room: int)
    requires room > 0
    ensures Within(g, id, x, room) <==> x == id || (id in g && WithinFrom(g, g[id], x, room - 1))
  {
    if x != id && Within(g, id, x, room) {
      var t :| Edge(g, id, t) && Within(g, t, x, room - 1);
      var i :| 0 <= i < |g[id]| && Followed(g[id][i]) && g[id][i].nodeId == t;
      assert g[id][i] in g[id];
    }
    if id in g && WithinFrom(g, g[id], x, room - 1) {
      var r :| r in g[id] && Followed(r) && Within(g, r.nodeId, x, room - 1);
      var i :| 0 <= i < |g[id]| && g[id][i] == r;
      EdgeOf(g, id, i);
    }
  }

  lemma {:induction false} TreeReferences(
      g: AddressSpace, start: NodeId, id: NodeId, i: nat, maxDepth: int, depth: int, visited: set<NodeId>)
    requires Ready(g, start, id, visited) && id in g && i <= |g[id]| && NoneVisited(g[id][i..], visited)
    requires depth < maxDepth
    ensures var w := WalkReferences(g, g[id][i..], maxDepth, depth, visited);
            && Grown(g, start, id, visited, w.visited)
            && forall x :: x in w.calls <==> WithinFrom(g, g[id][i..], x, maxDepth - depth - 1)
    decreases maxDepth - depth, 0, |g[id]| - i
  {
    hide Ready, Grown, NoneVisited, Walk, Within;
    if i < |g[id]| {
      var r, refs := g[id][i], g[id][i..];
      assert refs[0] == r && refs[1..] == g[id][i + 1..] && refs == [r] + g[id][i + 1..];
      if Followed(r) {
        HeadNotVisited(refs, visited);
        EdgeOf(g, id, i);
        ChildReady(g, start, id, r.nodeId, visited);
        TreeWalk(g, start, r.nodeId, maxDepth, depth + 1, visited + {r.nodeId});
        var after := Walk(g, r.nodeId, maxDepth, depth + 1, visited + {r.nodeId}).visited;
        NextReady(g, start, id, i, visited, after);
        TreeReferences(g, start, id, i + 1, maxDepth, depth, after);
        GrownTwice(g, start, id, visited, after, WalkReferences(g, g[id][i + 1..], maxDepth, depth, after).visited);
      } else {
        TailNotVisited(refs, visited);
        TreeReferences(g, start, id, i + 1, maxDepth, depth, visited);
      }
    } else {
      NothingGrown(g, start, id, visited);
    }
  }

  lemma HeadNotVisited(refs: seq<Reference>, visited: set<NodeId>)
    requires refs != [] && Followed(refs[0]) && NoneVisited(refs, visited)
    ensures refs[0].nodeId !in visited
  {
  }

  lemma TailNotVisited(refs: seq<Reference>, visited: set<NodeId>)
    requires refs != [] && NoneVisited(refs, visited)
    ensures NoneVisited(refs[1..], visited)
  {
  }

  lemma NothingGrown(g: AddressSpace, start: NodeId, id: NodeId, visited: set<NodeId>)
    requires Ready(g, start, id, visited)
    ensures Grown(g, start, id, visited, visited)
  {
  }

  lemma {:induction false} WithinHasPath(g: AddressSpace, id: NodeId, x: NodeId, room: int)
    requires Within(g, id, x, room)
    ensures Near(g, id, x, room)
    decreases room
  {
    if x == id {
      assert Path(g, [id]) && [id][0] == id && |[id]| <= room;
    } else {
      var t :| Edge(g, id, t) && Within(g, t, x, room - 1);
      WithinHasPath(g, t, x, room - 1);
      var p :| Path(g, p) && p[0] == t && p[|p| - 1] == x && |p| <= room - 1;
      assert Path(g, [id] + p);
    }
  }

  lemma {:induction false} PathIsWithin(g: AddressSpace, p: seq<NodeId>, room: int)
    requires Path(g, p) && |p| <= room
    ensures Within(g, p[0], p[|p| - 1], room)
    decreases |p|
  {
    if |p| > 1 {
      assert Edge(g, p[0], p[0 + 1]);
      forall i | 0 <= i < |p| - 2
        ensures Edge(g, p[1..][i], p[1..][i + 1])
      {
        assert Edge(g, p[i + 1], p[i + 1 + 1]);
      }
      PathIsWithin(g, p[1..], room - 1);
    }
  }

  /** If no node is led to twice and nothing leads to the start, a node is browsed exactly when it is near enough. */
  lemma DepthIsDistance(g: AddressSpace, start: NodeId, maxDepth: int, x: NodeId)
    requires Tree(g, start)
    ensures x in Walk(g, start, maxDepth, 0, {}).calls <==> Near(g, start, x, maxDepth)
  {
    hide Walk, Within, Tree;
    assert Ready(g, start, start, {});
    TreeWalk(g, start, start, maxDepth, 0, {});
    if Within(g, start, x, maxDepth) {
      WithinHasPath(g, start, x, maxDepth);
    }
    if Near(g, start, x, maxDepth) {
      var p :| Path(g, p) && p[0] == start && p[|p| - 1] == x && |p| <= maxDepth;
      PathIsWithin(g, p, maxDepth);
    }
  }
}
