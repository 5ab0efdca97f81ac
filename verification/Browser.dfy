/** Recursive browsing: a depth-bounded walk of a graph, with one set of visited nodes for the whole walk. */
module Browser {
  import opened Wrappers
  import opened Collections

  type NodeId = string

  datatype NodeClass = ObjectNode | VariableNode | OtherNode

  /** `nodeId` is the text form; the empty text stands for a reference without one. */
  datatype Reference = Reference(browseName: string, nodeId: NodeId, nodeClass: NodeClass, isForward: bool)

  datatype Item = Item(browseName: string, nodeId: NodeId, nodeClass: NodeClass, depth: int, children: seq<Item>)

  /** What the server answers; browsing a node that is not there fails. */
  type AddressSpace = map<NodeId, seq<Reference>>

  predicate Followed(r: Reference) {
    (r.nodeClass == ObjectNode || r.nodeClass == VariableNode) && r.isForward && r.nodeId != ""
  }

  function ItemOf(r: Reference, depth: int, children: seq<Item>): Item {
    Item(r.browseName, r.nodeId, r.nodeClass, depth, children)
  }

  // ----- what a walk gives

  /** The items, the visited set afterwards, and the nodes browsed, in order. */
  datatype Walked = Walked(items: seq<Item>, visited: set<NodeId>, calls: seq<NodeId>)

  function Walk(g: AddressSpace, id: NodeId, maxDepth: int, depth: int, visited: set<NodeId>): Walked
    decreases maxDepth - depth, 1, 0
  {
    if depth >= maxDepth then Walked([], visited, [])
    else
      var w := if id in g then WalkReferences(g, g[id], maxDepth, depth, visited) else Walked([], visited, []);
      w.(calls := [id] + w.calls)
  }

  function WalkReferences(
      g: AddressSpace, refs: seq<Reference>, maxDepth: int, depth: int, visited: set<NodeId>): Walked
    requires depth < maxDepth
    decreases maxDepth - depth, 0, |refs|
  {
    if refs == [] then Walked([], visited, [])
    else
      var w := WalkReference(g, refs[0], maxDepth, depth, visited);
      var rest := WalkReferences(g, refs[1..], maxDepth, depth, w.visited);
      Walked(w.items + rest.items, rest.visited, w.calls + rest.calls)
  }

  function WalkReference(g: AddressSpace, r: Reference, maxDepth: int, depth: int, visited: set<NodeId>): Walked
    requires depth < maxDepth
    decreases maxDepth - depth, 0, 0
  {
    if Followed(r) && r.nodeId !in visited then
      var w := Walk(g, r.nodeId, maxDepth, depth + 1, visited + {r.nodeId});
      w.(items := [ItemOf(r, depth, w.items)])
    else
      Walked([ItemOf(r, depth, [])], visited, [])
  }

  lemma OneReference(g: AddressSpace, refs: seq<Reference>, i: nat, maxDepth: int, depth: int, visited: set<NodeId>)
    requires depth < maxDepth && i < |refs|
    ensures var w := WalkReference(g, refs[i], maxDepth, depth, visited);
            var rest := WalkReferences(g, refs[i + 1..], maxDepth, depth, w.visited);
            WalkReferences(g, refs[i..], maxDepth, depth, visited)
            == Walked(w.items + rest.items, rest.visited, w.calls + rest.calls)
  {
    assert refs[i..][0] == refs[i] && refs[i..][1..] == refs[i + 1..];
  }

  lemma NoMoreReferences(g: AddressSpace, refs: seq<Reference>, maxDepth: int, depth: int, visited: set<NodeId>)
    requires depth < maxDepth
    ensures WalkReferences(g, refs[|refs|..], maxDepth, depth, visited) == Walked([], visited, [])
  {
  }

  // ----- the walk itself

  class Manager {
    const space: AddressSpace
    var calls: seq<NodeId>

    constructor (space: AddressSpace)
      ensures this.space == space && calls == []
    {
      this.space, calls := space, [];
    }

    method Browse(id: NodeId) returns (r: Option<seq<Reference>>)
      modifies this
      ensures calls == old(calls) + [id]
      ensures r == if id in space then Some(space[id]) else None
    {
      calls := calls + [id];
      r := if id in space then Some(space[id]) else None;
    }
  }

  class VisitedSet {
    var ids: set<NodeId>

    constructor ()
      ensures ids == {}
    {
      ids := {};
    }
  }

  method BrowseRecursive(manager: Manager, id: NodeId, maxDepth: int, currentDepth: int, visited: VisitedSet)
      returns (result: seq<Item>)
    modifies manager, visited
    decreases maxDepth - currentDepth
    ensures var w := Walk(manager.space, id, maxDepth, currentDepth, old(visited.ids));
            && result == w.items && visited.ids == w.visited && manager.calls == old(manager.calls) + w.calls
  {
    if currentDepth >= maxDepth {
      return [];
    }
    var answer := manager.Browse(id);
    if answer.None? {
      return [];
    }
    var references := answer.value;
    ghost var g, w := manager.space, Walk(manager.space, id, maxDepth, currentDepth, visited.ids);
    result := [];
    assert references[0..] == references;
    hide Walk, WalkReferences;
    var i := 0;
    while i < |references|
      invariant 0 <= i <= |references|
      invariant var rest := WalkReferences(g, references[i..], maxDepth, currentDepth, visited.ids);
                && w.items == result + rest.items
                && w.visited == rest.visited
                && old(manager.calls) + w.calls == manager.calls + rest.calls
    {
      OneReference(g, references, i, maxDepth, currentDepth, visited.ids);
      var r := references[i];
      ghost var seen, before := visited.ids, manager.calls;
      ghost var step := WalkReference(g, r, maxDepth, currentDepth, seen);
      ghost var rest := WalkReferences(g, references[i + 1..], maxDepth, currentDepth, step.visited);
      var children := [];
      if Followed(r) && r.nodeId !in visited.ids {
        visited.ids := visited.ids + {r.nodeId};
        children := BrowseRecursive(manager, r.nodeId, maxDepth, currentDepth + 1, visited);
      }
      assert manager.calls == before + step.calls && visited.ids == step.visited;
      Reassociate(result, step.items, rest.items);
      Reassociate(before, step.calls, rest.calls);
      result := result + [ItemOf(r, currentDepth, children)];
      i := i + 1;
    }
    NoMoreReferences(g, references, maxDepth, currentDepth, visited.ids);
  }

  // ----- no node twice

  /** The Object and Variable nodes that forward references lead to. */
  function Targets(g: AddressSpace): set<NodeId> {
    set n, i | n in g && 0 <= i < |g[n]| && Followed(g[n][i]) :: g[n][i].nodeId
  }

  predicate NoRepeats(s: seq<NodeId>) {
    forall i, j :: 0 <= i < j < |s| ==> s[i] != s[j]
  }

  /** Only nodes that were not visited before, each once, and visited now. */
  predicate NewOnly(calls: seq<NodeId>, before: set<NodeId>, after: set<NodeId>) {
    && before <= after && NoRepeats(calls)
    && forall c :: c in calls ==> c !in before && c in after
  }

  predicate AllLeadTo(refs: seq<Reference>, targets: set<NodeId>) {
    forall r :: r in refs && Followed(r) ==> r.nodeId in targets
  }

  lemma ReferencesLeadToTargets(g: AddressSpace, id: NodeId)
    requires id in g
    ensures AllLeadTo(g[id], Targets(g))
  {
  }

  lemma {:induction false} WalkIsNew(g: AddressSpace, id: NodeId, maxDepth: int, depth: int, visited: set<NodeId>)
    ensures var w := Walk(g, id, maxDepth, depth, visited);
            && w.visited <= visited + Targets(g)
            && if depth >= maxDepth then w.calls == [] && w.visited == visited
               else w.calls != [] && w.calls[0] == id && NewOnly(w.calls[1..], visited, w.visited)
    decreases maxDepth - depth, 1, 0
  {
    if depth < maxDepth && id in g {
      ReferencesLeadToTargets(g, id);
      WalkReferencesIsNew(g, g[id], maxDepth, depth, visited);
    }
  }

  lemma {:induction false} WalkReferencesIsNew(
      g: AddressSpace, refs: seq<Reference>, maxDepth: int, depth: int, visited: set<NodeId>)
    requires depth < maxDepth && AllLeadTo(refs, Targets(g))
    ensures var w := WalkReferences(g, refs, maxDepth, depth, visited);
            w.visited <= visited + Targets(g) && NewOnly(w.calls, visited, w.visited)
    decreases maxDepth - depth, 0, |refs|
  {
    hide Targets, NewOnly, WalkReference;
    if refs != [] {
      var w := WalkReference(g, refs[0], maxDepth, depth, visited);
      WalkReferenceIsNew(g, refs[0], maxDepth, depth, visited);
      WalkReferencesIsNew(g, refs[1..], maxDepth, depth, w.visited);
      var rest := WalkReferences(g, refs[1..], maxDepth, depth, w.visited);
      NewOnlyConcat(w.calls, rest.calls, visited, w.visited, rest.visited);
    } else {
      NothingIsNew(visited);
    }
  }

  lemma NothingIsNew(visited: set<NodeId>)
    ensures NewOnly([], visited, visited)
  {
  }

  lemma {:induction false} WalkReferenceIsNew(
      g: AddressSpace, r: Reference, maxDepth: int, depth: int, visited: set<NodeId>)
    requires depth < maxDepth && (Followed(r) ==> r.nodeId in Targets(g))
    ensures var w := WalkReference(g, r, maxDepth, depth, visited);
            w.visited <= visited + Targets(g) && NewOnly(w.calls, visited, w.visited)
    decreases maxDepth - depth, 0, 0
  {
    hide Targets, Walk;
    if Followed(r) && r.nodeId !in visited {
      WalkIsNew(g, r.nodeId, maxDepth, depth + 1, visited + {r.nodeId});
    }
  }

  lemma NewOnlyConcat(a: seq<NodeId>, b: seq<NodeId>, before: set<NodeId>, between: set<NodeId>, after: set<NodeId>)
    requires NewOnly(a, before, between) && NewOnly(b, between, after)
    ensures NewOnly(a + b, before, after)
  {
    forall i, j | 0 <= i < j < |a + b|
      ensures (a + b)[i] != (a + b)[j]
    {
      if i < |a| <= j {
        assert a[i] in a && b[j - |a|] in b;
      }
    }
  }

  lemma {:induction false} NoRepeatsCount(s: seq<NodeId>, t: set<NodeId>)
    requires NoRepeats(s) && forall c :: c in s ==> c in t
    ensures |s| <= |t|
    decreases |s|
  {
    if s != [] {
      forall c | c in s[1..]
        ensures c in t - {s[0]}
      {
        var i :| 0 <= i < |s| - 1 && s[1..][i] == c;
        assert s[i + 1] == c;
      }
      NoRepeatsCount(s[1..], t - {s[0]});
    }
  }

  // ----- reachability

  predicate Edge(g: AddressSpace, a: NodeId, b: NodeId) {
    a in g && exists i :: 0 <= i < |g[a]| && Followed(g[a][i]) && g[a][i].nodeId == b
  }

  predicate Path(g: AddressSpace, p: seq<NodeId>) {
    p != [] && forall i :: 0 <= i < |p| - 1 ==> Edge(g, p[i], p[i + 1])
  }

  ghost predicate Reachable(g: AddressSpace, a: NodeId, b: NodeId) {
    exists p :: Path(g, p) && p[0] == a && p[|p| - 1] == b
  }

  /** The Object and Variable nodes among those that can be reached; the start only if something leads back to it. */
  ghost function ReachableTargets(g: AddressSpace, start: NodeId): set<NodeId> {
    set t | t in Targets(g) && Reachable(g, start, t)
  }

  lemma OneMoreEdge(g: AddressSpace, a: NodeId, b: NodeId, c: NodeId)
    requires Reachable(g, a, b) && Edge(g, b, c)
    ensures Reachable(g, a, c)
  {
    var p :| Path(g, p) && p[0] == a && p[|p| - 1] == b;
    assert Path(g, p + [c]);
  }

  lemma StartIsReachable(g: AddressSpace, start: NodeId)
    ensures Reachable(g, start, start)
  {
    assert Path(g, [start]);
  }

  lemma {:induction false} OnlyReachable(
      g: AddressSpace, start: NodeId, id: NodeId, maxDepth: int, depth: int, visited: set<NodeId>)
    requires Reachable(g, start, id)
    ensures forall c :: c in Walk(g, id, maxDepth, depth, visited).calls ==> Reachable(g, start, c)
    decreases maxDepth - depth, 1, 0
  {
    hide Reachable;
    if depth < maxDepth && id in g {
      OnlyReachableFrom(g, start, id, 0, maxDepth, depth, visited);
      assert g[id][0..] == g[id];
    }
  }

  lemma {:induction false} OnlyReachableFrom(
      g: AddressSpace, start: NodeId, id: NodeId, i: nat, maxDepth: int, depth: int, visited: set<NodeId>)
    requires Reachable(g, start, id) && depth < maxDepth && id in g && i <= |g[id]|
    ensures forall c :: c in WalkReferences(g, g[id][i..], maxDepth, depth, visited).calls ==> Reachable(g, start, c)
    decreases maxDepth - depth, 0, |g[id]| - i
  {
    hide Reachable;
    if i < |g[id]| {
      var r := g[id][i];
      if Followed(r) && r.nodeId !in visited {
        assert Edge(g, id, r.nodeId);
        OneMoreEdge(g, start, id, r.nodeId);
        OnlyReachable(g, start, r.nodeId, maxDepth, depth + 1, visited + {r.nodeId});
      }
      var w := WalkReference(g, r, maxDepth, depth, visited);
      OnlyReachableFrom(g, start, id, i + 1, maxDepth, depth, w.visited);
      assert g[id][i..][1..] == g[id][i + 1..];
    }
  }

  /**
   The start is browsed first, and after that no node twice: at most one browse call for the start and one
   for each Object or Variable node that can be reached.
   */
  lemma NoNodeTwice(g: AddressSpace, start: NodeId, maxDepth: int)
    requires maxDepth > 0
    ensures var calls := Walk(g, start, maxDepth, 0, {}).calls;
            && calls != [] && calls[0] == start && NoRepeats(calls[1..])
            && (forall c :: c in calls[1..] ==> c in ReachableTargets(g, start))
            && |calls| <= 1 + |ReachableTargets(g, start)|
  {
    hide Walk, Targets, Reachable;
    WalkIsNew(g, start, maxDepth, 0, {});
    StartIsReachable(g, start);
    OnlyReachable(g, start, start, maxDepth, 0, {});
    NoRepeatsCount(Walk(g, start, maxDepth, 0, {}).calls[1..], ReachableTargets(g, start));
  }

  // ----- every reachable node

  /** No followed reference leads out of these nodes, from them or from the start. */
  predicate Encloses(g: AddressSpace, reach: set<NodeId>, start: NodeId) {
    forall n :: n in g && (n == start || n in reach) ==> AllLeadTo(g[n], reach)
  }

  lemma ReachEncloses(g: AddressSpace, start: NodeId)
    ensures Encloses(g, ReachableTargets(g, start), start)
  {
    hide Reachable;
    var reach := ReachableTargets(g, start);
    StartIsReachable(g, start);
    forall n, r | n in g && (n == start || n in reach) && r in g[n] && Followed(r)
      ensures r.nodeId in reach
    {
      var i :| 0 <= i < |g[n]| && g[n][i] == r;
      assert Edge(g, n, r.nodeId);
      OneMoreEdge(g, start, n, r.nodeId);
    }
  }

  /** Every followed reference of a browsed node leads to a visited one. */
  predicate Closed(g: AddressSpace, calls: seq<NodeId>, visited: set<NodeId>) {
    forall c :: c in calls && c in g ==> AllLeadTo(g[c], visited)
  }

  /** What was visited before is closed under browsing, and every node that becomes visited is browsed. */
  predicate Complete(g: AddressSpace, calls: seq<NodeId>, before: set<NodeId>, after: set<NodeId>) {
    before <= after && Closed(g, calls, after) && forall n :: n in after && n !in before ==> n in calls
  }

  /** With room for all reachable targets not yet visited, the walk from a reachable node is complete. */
  lemma {:induction false} WalkIsComplete(
      g: AddressSpace, reach: set<NodeId>, start: NodeId, id: NodeId, maxDepth: int, depth: int, visited: set<NodeId>)
    requires Encloses(g, reach, start) && (id == start || id in reach)
    requires maxDepth - depth > |reach - visited|
    ensures var w := Walk(g, id, maxDepth, depth, visited);
            id in w.calls && Complete(g, w.calls, visited, w.visited)
    decreases maxDepth - depth, 1, 0
  {
    if id in g {
      WalkReferencesIsComplete(g, reach, start, g[id], maxDepth, depth, visited);
    }
  }

  lemma {:induction false} WalkReferencesIsComplete(
      g: AddressSpace, reach: set<NodeId>, start: NodeId, refs: seq<Reference>,
      maxDepth: int, depth: int, visited: set<NodeId>)
    requires Encloses(g, reach, start) && AllLeadTo(refs, reach)
    requires maxDepth - depth > |reach - visited|
    ensures var w := WalkReferences(g, refs, maxDepth, depth, visited);
            AllLeadTo(refs, w.visited) && Complete(g, w.calls, visited, w.visited)
    decreases maxDepth - depth, 0, |refs|
  {
    hide Complete, WalkReference, Encloses;
    if refs != [] {
      var w := WalkReference(g, refs[0], maxDepth, depth, visited);
      WalkReferenceIsComplete(g, reach, start, refs[0], maxDepth, depth, visited);
      SubsetCount(reach - w.visited, reach - visited);
      WalkReferencesIsComplete(g, reach, start, refs[1..], maxDepth, depth, w.visited);
      var rest := WalkReferences(g, refs[1..], maxDepth, depth, w.visited);
      CompleteConcat(g, w.calls, rest.calls, visited, w.visited, rest.visited);
      assert refs == [refs[0]] + refs[1..];
    } else {
      NothingIsComplete(g, visited);
    }
  }

  lemma NothingIsComplete(g: AddressSpace, visited: set<NodeId>)
    ensures Complete(g, [], visited, visited)
  {
  }

  lemma {:induction false} WalkReferenceIsComplete(
      g: AddressSpace, reach: set<NodeId>, start: NodeId, r: Reference, maxDepth: int, depth: int, visited: set<NodeId>)
    requires Encloses(g, reach, start) && (Followed(r) ==> r.nodeId in reach)
    requires maxDepth - depth > |reach - visited|
    ensures var w := WalkReference(g, r, maxDepth, depth, visited);
            && Complete(g, w.calls, visited, w.visited) && visited <= w.visited
            && (Followed(r) ==> r.nodeId in w.visited)
    decreases maxDepth - depth, 0, 0
  {
    hide Walk, Encloses;
    if Followed(r) && r.nodeId !in visited {
      FewerLeft(reach, visited, r.nodeId);
      WalkIsComplete(g, reach, start, r.nodeId, maxDepth, depth + 1, visited + {r.nodeId});
    }
  }

  lemma CompleteConcat(
      g: AddressSpace, a: seq<NodeId>, b: seq<NodeId>, before: set<NodeId>, between: set<NodeId>, after: set<NodeId>)
    requires Complete(g, a, before, between) && Complete(g, b, between, after)
    ensures Complete(g, a + b, before, after) && between <= after
  {
    forall c | c in a + b && c in g
      ensures AllLeadTo(g[c], after)
    {
      assert c in a || c in b;
    }
  }

  lemma FewerLeft(t: set<NodeId>, visited: set<NodeId>, id: NodeId)
    requires id in t && id !in visited
    ensures |t - (visited + {id})| == |t - visited| - 1
  {
    assert t - (visited + {id}) == (t - visited) - {id};
  }

  lemma {:induction false} PathIsBrowsed(g: AddressSpace, calls: seq<NodeId>, p: seq<NodeId>, i: nat)
    requires Closed(g, calls, set c | c in calls) && Path(g, p) && p[0] in calls && i < |p|
    ensures p[i] in calls
  {
    if i > 0 {
      PathIsBrowsed(g, calls, p, i - 1);
      assert Edge(g, p[i - 1], p[i - 1 + 1]);
    }
  }

  /**
   With maxDepth above the number of targets that can be reached, the nodes browsed are exactly the reachable
   ones.
   */
  lemma BrowsesExactlyTheReachable(g: AddressSpace, start: NodeId, maxDepth: int, n: NodeId)
    requires maxDepth > |ReachableTargets(g, start)|
    ensures n in Walk(g, start, maxDepth, 0, {}).calls <==> Reachable(g, start, n)
  {
    hide Walk, ReachableTargets, Encloses;
    var w := Walk(g, start, maxDepth, 0, {});
    var reach := ReachableTargets(g, start);
    assert reach - {} == reach;
    ReachEncloses(g, start);
    WalkIsComplete(g, reach, start, start, maxDepth, 0, {});
    assert Closed(g, w.calls, set c | c in w.calls);
    if Reachable(g, start, n) {
      var p :| Path(g, p) && p[0] == start && p[|p| - 1] == n;
      PathIsBrowsed(g, w.calls, p, |p| - 1);
    }
    StartIsReachable(g, start);
    OnlyReachable(g, start, start, maxDepth, 0, {});
  }

  // ----- the bound is exact

  /** The k-th node of a chain. */
  function Name(k: nat): (s: NodeId)
    ensures |s| == k + 1
  {
    seq(k + 1, _ => 'n')
  }

  function Names(lo: nat, hi: nat): set<NodeId> {
    set k: nat | lo <= k <= hi :: Name(k)
  }

  function To(n: NodeId): Reference {
    Reference("", n, ObjectNode, true)
  }

  function ChainReferences(k: int, m: nat): seq<Reference> {
    (if 0 <= k < m then [To(Name(k + 1))] else []) + if k == 0 then [To(Name(m))] else []
  }

  /** Node 0 leads to node 1, that to node 2, and so on up to node m; and node 0 leads straight to node m as well. */
  function Chain(m: nat): AddressSpace {
    map s | s in Names(0, m) :: ChainReferences(|s| - 1, m)
  }

  lemma ChainAt(m: nat, k: nat)
    requires k <= m
    ensures Name(k) in Chain(m) && Chain(m)[Name(k)] == ChainReferences(k, m)
  {
    assert Name(k) in Names(0, m);
  }

  lemma NotNamed(lo: nat, hi: nat, k: nat)
    ensures Name(k) in Names(lo, hi) <==> lo <= k <= hi
  {
    if Name(k) in Names(lo, hi) {
      var j: nat :| lo <= j <= hi && Name(j) == Name(k);
      assert |Name(j)| == j + 1;
    }
  }

  lemma NextName(lo: nat, hi: nat)
    requires lo <= hi + 1
    ensures Names(lo, hi + 1) == Names(lo, hi) + {Name(hi + 1)}
  {
  }

  lemma {:induction false} NamesCount(m: nat)
    ensures |Names(1, m)| <= m
  {
    if m == 0 {
      assert Names(1, 0) == {};
    } else {
      NextName(1, m - 1);
      NamesCount(m - 1);
    }
  }

  /** Walking along the chain with maxDepth m ends on node m, visited but not browsed. */
  lemma {:induction false} ChainWalk(m: nat, k: nat)
    requires 1 <= k <= m
    ensures var w := Walk(Chain(m), Name(k), m, k, Names(1, k));
            w.visited == Names(1, m) && Name(m) !in w.calls
    decreases m - k
  {
    hide Chain, Name, Names, Walk;
    if k < m {
      var r := To(Name(k + 1));
      ChainAt(m, k);
      NotNamed(1, k, k + 1);
      NextName(1, k);
      assert ChainReferences(k, m) == [r];
      SingleReference(Chain(m), Name(k), r, m, k, Names(1, k));
      ChainWalk(m, k + 1);
      NotNamed(m, m, k);
      NotNamed(m, m, m);
    } else {
      TooDeep(Chain(m), Name(m), m, m, Names(1, m));
    }
  }

  lemma TooDeep(g: AddressSpace, id: NodeId, maxDepth: int, depth: int, visited: set<NodeId>)
    requires depth >= maxDepth
    ensures Walk(g, id, maxDepth, depth, visited) == Walked([], visited, [])
  {
  }

  lemma SingleReference(g: AddressSpace, id: NodeId, r: Reference, maxDepth: int, depth: int, visited: set<NodeId>)
    requires depth < maxDepth && id in g && g[id] == [r] && Followed(r) && r.nodeId !in visited
    ensures var w := Walk(g, id, maxDepth, depth, visited);
            var next := Walk(g, r.nodeId, maxDepth, depth + 1, visited + {r.nodeId});
            w.visited == next.visited && w.calls == [id] + next.calls
  {
    assert [r][1..] == [];
    assert WalkReferences(g, [r], maxDepth, depth, visited).calls
        == WalkReference(g, r, maxDepth, depth, visited).calls;
  }

  lemma ChainStart(m: nat)
    requires m >= 1
    ensures Name(m) !in Walk(Chain(m), Name(0), m, 0, {}).calls
  {
    hide Chain, Name, Names;
    ChainAt(m, 0);
    ChainWalk(m, 1);
    FirstName();
    NotNamed(1, m, m);
    NotNamed(m, m, 0);
    NotNamed(m, m, m);
    var a, b := To(Name(1)), To(Name(m));
    assert ChainReferences(0, m) == [a, b] && [a, b][1..] == [b] && [b][1..] == [];
    var none: set<NodeId> := {};
    assert none + {Name(1)} == Names(1, 1);
    var w := WalkReference(Chain(m), a, m, 0, none);
    assert w.visited == Names(1, m);
    assert WalkReferences(Chain(m), [b], m, 0, w.visited).calls == [];
  }

  lemma FirstName()
    ensures Names(1, 1) == {Name(1)} && |Name(1)| > 0
  {
  }

  lemma ChainTargets(m: nat)
    requires m >= 1
    ensures |ReachableTargets(Chain(m), Name(0))| <= m
  {
    var g := Chain(m);
    forall t | t in Targets(g)
      ensures t in Names(1, m)
    {
      var n, i :| n in g && 0 <= i < |g[n]| && Followed(g[n][i]) && g[n][i].nodeId == t;
      assert g[n] == ChainReferences(|n| - 1, m);
    }
    NamesCount(m);
    SubsetCount(ReachableTargets(g, Name(0)), Names(1, m));
  }

  lemma ChainReaches(m: nat)
    requires m >= 1
    ensures Edge(Chain(m), Name(0), Name(m)) && Path(Chain(m), [Name(0), Name(m)])
    ensures Reachable(Chain(m), Name(0), Name(m))
  {
    var g, p := Chain(m), [Name(0), Name(m)];
    ChainAt(m, 0);
    assert g[Name(0)][1] == To(Name(m));
    assert Edge(g, Name(0), Name(m));
    assert Path(g, p) && p[0] == Name(0) && p[|p| - 1] == Name(m);
  }

  /** Every space with at most n reachable targets has all its reachable nodes browsed. */
  ghost predicate AllBrowsed(n: nat, maxDepth: int) {
    forall g: AddressSpace, start: NodeId, x: NodeId ::
      |ReachableTargets(g, start)| <= n && Reachable(g, start, x) ==> x in Walk(g, start, maxDepth, 0, {}).calls
  }

  lemma AllBrowsedExactly(n: nat, maxDepth: int)
    ensures AllBrowsed(n, maxDepth) <==> maxDepth > n
  {
    hide Walk, Reachable, ReachableTargets, Chain, Name;
    if maxDepth > n {
      forall g: AddressSpace, start: NodeId, x: NodeId | |ReachableTargets(g, start)| <= n && Reachable(g, start, x)
        ensures x in Walk(g, start, maxDepth, 0, {}).calls
      {
        BrowsesExactlyTheReachable(g, start, maxDepth, x);
      }
    } else if maxDepth >= 1 {
      ChainTargets(maxDepth);
      ChainReaches(maxDepth);
      ChainStart(maxDepth);
    } else {
      NothingBrowsed(maxDepth);
      StartIsReachable(map[], "n");
    }
  }

  lemma NothingBrowsed(maxDepth: int)
    requires maxDepth <= 0
    ensures |ReachableTargets(map[], "n")| == 0 && Walk(map[], "n", maxDepth, 0, {}).calls == []
  {
    assert Targets(map[]) == {};
    assert ReachableTargets(map[], "n") == {};
  }

  /** A node fewer than maxDepth references away from the start. */
  ghost predicate Near(g: AddressSpace, start: NodeId, x: NodeId, maxDepth: int) {
    exists p :: Path(g, p) && p[0] == start && p[|p| - 1] == x && |p| <= maxDepth
  }

  ghost predicate NearBrowsed(n: nat, maxDepth: int) {
    forall g: AddressSpace, start: NodeId, x: NodeId ::
      |ReachableTargets(g, start)| <= n && Near(g, start, x, maxDepth) ==> x in Walk(g, start, maxDepth, 0, {}).calls
  }

  /**
   Depth is not distance: for every maxDepth from 2 on there is a space in which a node one reference away
   from the start is met first at the end of a long way, where the walk stops, and is never browsed.
   */
  lemma NearNodeMissed(maxDepth: nat)
    requires maxDepth >= 2
    ensures Edge(Chain(maxDepth), Name(0), Name(maxDepth))
    ensures Name(maxDepth) !in Walk(Chain(maxDepth), Name(0), maxDepth, 0, {}).calls
    ensures |ReachableTargets(Chain(maxDepth), Name(0))| <= maxDepth
  {
    ChainTargets(maxDepth);
    ChainReaches(maxDepth);
    ChainStart(maxDepth);
  }

  /** So near nodes are sure to be browsed exactly when all nodes are, or when only the start is near. */
  lemma NearBrowsedExactly(n: nat, maxDepth: int)
    ensures NearBrowsed(n, maxDepth) <==> maxDepth > n || maxDepth <= 1
  {
    hide Walk, ReachableTargets, Chain, Name;
    if maxDepth > n || maxDepth <= 1 {
      forall g: AddressSpace, start: NodeId, x: NodeId |
          |ReachableTargets(g, start)| <= n && Near(g, start, x, maxDepth)
        ensures x in Walk(g, start, maxDepth, 0, {}).calls
      {
        if maxDepth > n {
          BrowsesExactlyTheReachable(g, start, maxDepth, x);
        } else {
          StartIsBrowsed(g, start, maxDepth);
        }
      }
    } else {
      ChainTargets(maxDepth);
      ChainReaches(maxDepth);
      ChainStart(maxDepth);
      assert Near(Chain(maxDepth), Name(0), Name(maxDepth), maxDepth);
    }
  }

  lemma StartIsBrowsed(g: AddressSpace, start: NodeId, maxDepth: int)
    requires maxDepth > 0
    ensures start in Walk(g, start, maxDepth, 0, {}).calls
  {
  }
}
