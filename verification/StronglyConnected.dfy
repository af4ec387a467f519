/** Iterative Tarjan: `StronglyConnectedComponents` and the invariant of its descent. */
module StronglyConnected {
  import opened Digraphs

  /** A vertex being explored, its cached outbound neighbours, and the next one to try. */
  datatype Cursor = Cursor(id: NodeId, branches: seq<NodeId>, branchIdx: nat)

  /** The variables the descent updates. */
  datatype Search = Search(
    index: nat,
    discIdx: map<NodeId, nat>,
    lowLink: map<NodeId, nat>,
    onStack: set<NodeId>,
    stack: seq<NodeId>,
    dfsStack: seq<Cursor>,
    components: seq<set<NodeId>>,
    nodeToComp: map<NodeId, nat>)

  function Open(g: Digraph, v: NodeId): Cursor {
    Cursor(v, g.Adjacent(v, Outbound), 0)
  }

  ghost predicate Gray(s: Search, v: NodeId) {
    exists k :: 0 <= k < |s.dfsStack| && s.dfsStack[k].id == v
  }

  // ----- The invariant -----

  ghost predicate Tables(g: Digraph, s: Search) {
    && (forall v :: v in s.lowLink <==> v in s.discIdx)
    && (forall v :: v in s.discIdx ==> v in g.outbound && s.discIdx[v] < s.index)
  }

  /** A visited vertex is on the Tarjan stack or in a component, never both. */
  ghost predicate Placed(s: Search) {
    && (forall v :: v in s.discIdx <==> v in s.onStack || v in s.nodeToComp)
    && (forall v :: v in s.onStack ==> v !in s.nodeToComp)
    && (forall v :: v in s.onStack <==> v in s.stack)
  }

  /** The Tarjan stack is in discovery order. */
  ghost predicate Sorted(s: Search) {
    && (forall i :: 0 <= i < |s.stack| ==> s.stack[i] in s.discIdx)
    && (forall i, j :: 0 <= i < j < |s.stack| ==> s.discIdx[s.stack[i]] < s.discIdx[s.stack[j]])
  }

  ghost predicate Sound(g: Digraph, s: Search, c: Cursor) {
    && c.id in s.onStack
    && c.id in s.discIdx
    && c.id in s.lowLink
    && c.branches == g.Adjacent(c.id, Outbound)
    && c.branchIdx <= |c.branches|
  }

  /** Cursors are an increasing part of the stack. */
  ghost predicate Ordered(g: Digraph, s: Search) {
    && (forall v :: v in s.onStack ==> v in s.discIdx)
    && (forall k :: 0 <= k < |s.dfsStack| ==> Sound(g, s, s.dfsStack[k]))
    && (forall j, k :: 0 <= j < k < |s.dfsStack| ==> s.discIdx[s.dfsStack[j].id] < s.discIdx[s.dfsStack[k].id])
  }

  /** Whatever an open cursor passed is in `known`. */
  ghost predicate PassedKnown(g: Digraph, s: Search, known: set<NodeId>)
    requires Ordered(g, s)
  {
    forall k, w :: 0 <= k < |s.dfsStack| && w in s.dfsStack[k].branches[..s.dfsStack[k].branchIdx] ==> w in known
  }

  /** Whatever a finished vertex points to is in `known`. */
  ghost predicate DoneKnown(g: Digraph, s: Search, known: set<NodeId>) {
    forall v, w :: v in s.discIdx && !Gray(s, v) && w in g.Adjacent(v, Outbound) ==> w in known
  }

  /** An open vertex reaches everything above it on the stack. */
  ghost predicate ReachesAbove(g: Digraph, s: Search)
    requires Ordered(g, s)
  {
    forall k, v :: 0 <= k < |s.dfsStack| && v in s.onStack && s.discIdx[s.dfsStack[k].id] <= s.discIdx[v]
                   ==> Reaches(g, Outbound, s.dfsStack[k].id, v)
  }

  ghost predicate ReachesOpen(g: Digraph, s: Search, v: NodeId)
    requires Ordered(g, s) && v in s.discIdx
  {
    exists k: nat :: OpenAt(g, s, v, k)
  }

  /** `v` reaches the vertex of cursor `k`, which was discovered no later. */
  ghost predicate OpenAt(g: Digraph, s: Search, v: NodeId, k: nat)
    requires Ordered(g, s) && v in s.discIdx
  {
    k < |s.dfsStack| && s.discIdx[s.dfsStack[k].id] <= s.discIdx[v] && Reaches(g, Outbound, v, s.dfsStack[k].id)
  }

  /** Every stack vertex reaches an open vertex at or below it. */
  ghost predicate ReachesBelow(g: Digraph, s: Search)
    requires Ordered(g, s)
  {
    forall v :: v in s.onStack ==> ReachesOpen(g, s, v)
  }

  /** Stack vertex `v` was discovered under cursor `k` and under no later cursor. */
  ghost predicate InSegment(g: Digraph, s: Search, k: nat, v: NodeId)
    requires Ordered(g, s) && k < |s.dfsStack|
  {
    && v in s.onStack
    && s.discIdx[s.dfsStack[k].id] <= s.discIdx[v]
    && (k + 1 < |s.dfsStack| ==> s.discIdx[v] < s.discIdx[s.dfsStack[k + 1].id])
  }

  /** `w` is a neighbour of `v` that the descent under cursor `k` has already looked at. */
  ghost predicate Examined(g: Digraph, s: Search, k: nat, v: NodeId, w: NodeId)
    requires Ordered(g, s) && k < |s.dfsStack|
  {
    if v == s.dfsStack[k].id then w in s.dfsStack[k].branches[..s.dfsStack[k].branchIdx] else w in g.Adjacent(v, Outbound)
  }

  /** A low link names a stack vertex that its own vertex reaches. */
  ghost predicate LowWitnessed(g: Digraph, s: Search, x: NodeId)
    requires Ordered(g, s) && x in s.discIdx && x in s.lowLink
  {
    && s.lowLink[x] <= s.discIdx[x]
    && exists w :: w in s.onStack && s.discIdx[w] == s.lowLink[x] && Reaches(g, Outbound, x, w)
  }

  ghost predicate Witnessed(g: Digraph, s: Search)
    requires Ordered(g, s)
  {
    forall k :: 0 <= k < |s.dfsStack| ==> LowWitnessed(g, s, s.dfsStack[k].id)
  }

  /** A low link bounds every examined edge of its segment that stays on the stack. */
  ghost predicate Bounded(g: Digraph, s: Search)
    requires Ordered(g, s)
  {
    forall k, v, w :: 0 <= k < |s.dfsStack| && InSegment(g, s, k, v) && w in s.onStack && Examined(g, s, k, v, w)
                      ==> s.lowLink[s.dfsStack[k].id] <= s.discIdx[w]
  }

  /** `components` and `nodeToComp` agree. */
  ghost predicate Agree(components: seq<set<NodeId>>, nodeToComp: map<NodeId, nat>) {
    && (forall v :: v in nodeToComp ==> nodeToComp[v] < |components| && v in components[nodeToComp[v]])
    && (forall i, v :: 0 <= i < |components| && v in components[i] ==> v in nodeToComp && nodeToComp[v] == i)
    && (forall i :: 0 <= i < |components| ==> components[i] != {})
  }

  /** Edges never climb to a higher component. */
  ghost predicate Descending(g: Digraph, nodeToComp: map<NodeId, nat>) {
    forall v, w :: v in nodeToComp && w in g.Adjacent(v, Outbound) ==> w in nodeToComp && nodeToComp[w] <= nodeToComp[v]
  }

  /** Members of one component reach each other. */
  ghost predicate Connected(g: Digraph, nodeToComp: map<NodeId, nat>) {
    forall v, w :: v in nodeToComp && w in nodeToComp && nodeToComp[v] == nodeToComp[w] ==> Reaches(g, Outbound, v, w)
  }

  ghost predicate Inv(g: Digraph, s: Search) {
    && Tables(g, s) && Placed(s) && Sorted(s) && Ordered(g, s)
    && PassedKnown(g, s, s.discIdx.Keys) && DoneKnown(g, s, s.discIdx.Keys)
    && ReachesAbove(g, s) && ReachesBelow(g, s)
    && Witnessed(g, s) && Bounded(g, s)
    && Agree(s.components, s.nodeToComp) && Descending(g, s.nodeToComp) && Connected(g, s.nodeToComp)
  }

  // ----- The steps -----

  /** Pushes a vertex onto the Tarjan stack and initialises its indices. */
  function TarjanPush(s: Search, v: NodeId): Search {
    s.(index := s.index + 1,
    discIdx := s.discIdx[v := s.index],
    lowLink := s.lowLink[v := s.index],
    onStack := s.onStack + {v},
    stack := s.stack + [v])
  }

  /** `TarjanPush` together with opening the cursor. */
  function Discover(g: Digraph, s: Search, v: NodeId): Search {
    TarjanPush(s.(dfsStack := s.dfsStack + [Open(g, v)]), v)
  }

  function Top(s: Search): Cursor
    requires s.dfsStack != []
  {
    s.dfsStack[|s.dfsStack| - 1]
  }

  /** The top cursor moves past its next neighbour. */
  function Advance(s: Search): Search
    requires s.dfsStack != []
  {
    s.(dfsStack := s.dfsStack[..|s.dfsStack| - 1] + [Top(s).(branchIdx := Top(s).branchIdx + 1)])
  }

  function Lower(s: Search, x: NodeId, low: nat): Search
    requires x in s.lowLink
  {
    if s.lowLink[x] > low then s.(lowLink := s.lowLink[x := low]) else s
  }

  /** The next neighbour is already visited: lower the link when it is still on the stack. */
  function Pass(s: Search): Search
    requires s.dfsStack != [] && Top(s).branchIdx < |Top(s).branches|
    requires Top(s).id in s.lowLink && forall v :: v in s.onStack ==> v in s.discIdx
  {
    var w := Top(s).branches[Top(s).branchIdx];
    if w in s.onStack then Lower(Advance(s), Top(s).id, s.discIdx[w]) else Advance(s)
  }

  /** The top cursor is exhausted: drop it and hand its low link to the parent. */
  function Retreat(s: Search): Search
    requires s.dfsStack != [] && Top(s).id in s.lowLink
    requires |s.dfsStack| > 1 ==> s.dfsStack[|s.dfsStack| - 2].id in s.lowLink
  {
    var t := s.(dfsStack := s.dfsStack[..|s.dfsStack| - 1]);
    if |t.dfsStack| > 0 then Lower(t, Top(t).id, s.lowLink[Top(s).id]) else t
  }

  /** The stack from position `p` up becomes the next component. */
  function Unwind(s: Search, p: nat): Search
    requires p <= |s.stack|
  {
    var members := Members(s.stack, p);
    s.(stack := s.stack[..p],
    onStack := s.onStack - members,
    components := s.components + [members],
    nodeToComp := Assigned(s.nodeToComp, members, |s.components|))
  }

  // ----- Discovering a vertex -----

  lemma DiscoverTables(g: Digraph, s: Search, v: NodeId)
    requires Tables(g, s) && v in g.outbound
    ensures Tables(g, Discover(g, s, v))
  {
  }

  lemma DiscoverPlaced(g: Digraph, s: Search, v: NodeId)
    requires Placed(s) && v !in s.discIdx
    ensures Placed(Discover(g, s, v))
  {
  }

  lemma DiscoverSorted(g: Digraph, s: Search, v: NodeId)
    requires Tables(g, s) && Placed(s) && Sorted(s) && v !in s.discIdx
    ensures Sorted(Discover(g, s, v))
  {
    var t := Discover(g, s, v);
    assert forall i :: 0 <= i < |s.stack| ==> t.stack[i] == s.stack[i] && s.stack[i] != v;
  }

  lemma DiscoverOrdered(g: Digraph, s: Search, v: NodeId)
    requires Tables(g, s) && Ordered(g, s) && v !in s.discIdx
    ensures Ordered(g, Discover(g, s, v))
  {
    var t := Discover(g, s, v);
    forall k | 0 <= k < |t.dfsStack|
      ensures Sound(g, t, t.dfsStack[k])
    {
      if k < |s.dfsStack| {
        assert Sound(g, s, s.dfsStack[k]);
      }
    }
  }

  lemma DiscoverKnown(g: Digraph, s: Search, v: NodeId)
    requires Ordered(g, s) && v !in s.discIdx && Ordered(g, Discover(g, s, v))
    requires PassedKnown(g, s, s.discIdx.Keys + {v}) && DoneKnown(g, s, s.discIdx.Keys + {v})
    ensures PassedKnown(g, Discover(g, s, v), Discover(g, s, v).discIdx.Keys)
    ensures DoneKnown(g, Discover(g, s, v), Discover(g, s, v).discIdx.Keys)
  {
    var t := Discover(g, s, v);
    assert t.dfsStack[|s.dfsStack|].id == v;
    forall u | Gray(s, u)
      ensures Gray(t, u)
    {
      var k :| 0 <= k < |s.dfsStack| && s.dfsStack[k].id == u;
      assert t.dfsStack[k].id == u;
    }
  }

  lemma DiscoverAbove(g: Digraph, s: Search, v: NodeId)
    requires Ordered(g, s) && ReachesAbove(g, s) && v !in s.discIdx && Ordered(g, Discover(g, s, v))
    requires s.dfsStack != [] ==> v in g.Adjacent(Top(s).id, Outbound)
    requires Tables(g, s)
    ensures ReachesAbove(g, Discover(g, s, v))
  {
    var t := Discover(g, s, v);
    ReachesSelf(g, Outbound, v);
    forall k, u | 0 <= k < |t.dfsStack| && u in t.onStack && t.discIdx[t.dfsStack[k].id] <= t.discIdx[u]
      ensures Reaches(g, Outbound, t.dfsStack[k].id, u)
    {
      if k < |s.dfsStack| {
        assert t.dfsStack[k] == s.dfsStack[k] && Sound(g, s, s.dfsStack[k]);
        if u == v {
          assert Sound(g, s, Top(s));
          ReachesThenEdge(g, Outbound, s.dfsStack[k].id, Top(s).id, v);
        }
      }
    }
  }

  lemma DiscoverBelow(g: Digraph, s: Search, v: NodeId)
    requires Ordered(g, s) && ReachesBelow(g, s) && v !in s.discIdx && Ordered(g, Discover(g, s, v))
    ensures ReachesBelow(g, Discover(g, s, v))
  {
    var t := Discover(g, s, v);
    ReachesSelf(g, Outbound, v);
    forall u | u in t.onStack
      ensures ReachesOpen(g, t, u)
    {
      if u == v {
        assert OpenAt(g, t, u, |s.dfsStack|);
      } else {
        assert ReachesOpen(g, s, u);
        var k: nat :| OpenAt(g, s, u, k);
        assert Sound(g, s, s.dfsStack[k]) && t.dfsStack[k] == s.dfsStack[k];
        assert OpenAt(g, t, u, k);
      }
    }
  }

  lemma DiscoverWitnessed(g: Digraph, s: Search, v: NodeId)
    requires Ordered(g, s) && Witnessed(g, s) && v !in s.discIdx && Ordered(g, Discover(g, s, v))
    ensures Witnessed(g, Discover(g, s, v))
  {
    var t := Discover(g, s, v);
    ReachesSelf(g, Outbound, v);
    forall k | 0 <= k < |t.dfsStack|
      ensures LowWitnessed(g, t, t.dfsStack[k].id)
    {
      if k < |s.dfsStack| {
        assert Sound(g, s, s.dfsStack[k]) && LowWitnessed(g, s, s.dfsStack[k].id);
      } else {
        assert v in t.onStack;
      }
    }
  }

  lemma DiscoverBounded(g: Digraph, s: Search, v: NodeId)
    requires Tables(g, s) && Ordered(g, s) && Witnessed(g, s) && Bounded(g, s) && v !in s.discIdx && Ordered(g, Discover(g, s, v))
    ensures Bounded(g, Discover(g, s, v))
  {
    var t := Discover(g, s, v);
    forall k, u, w | 0 <= k < |t.dfsStack| && InSegment(g, t, k, u) && w in t.onStack && Examined(g, t, k, u, w)
      ensures t.lowLink[t.dfsStack[k].id] <= t.discIdx[w]
    {
      assert Sound(g, t, t.dfsStack[k]);
      if k < |s.dfsStack| {
        assert Sound(g, s, s.dfsStack[k]) && t.dfsStack[k] == s.dfsStack[k] && u != v;
        if w == v {
          assert LowWitnessed(g, s, s.dfsStack[k].id);
        } else {
          assert InSegment(g, s, k, u) && Examined(g, s, k, u, w);
        }
      }
    }
  }

  /** Everything of the invariant but that `v`, about to be discovered, may already have been passed. */
  ghost predicate Ready(g: Digraph, s: Search, v: NodeId) {
    && Tables(g, s) && Placed(s) && Sorted(s) && Ordered(g, s)
    && PassedKnown(g, s, s.discIdx.Keys + {v}) && DoneKnown(g, s, s.discIdx.Keys + {v})
    && ReachesAbove(g, s) && ReachesBelow(g, s)
    && Witnessed(g, s) && Bounded(g, s)
    && Agree(s.components, s.nodeToComp) && Descending(g, s.nodeToComp) && Connected(g, s.nodeToComp)
    && v in g.outbound && v !in s.discIdx && (s.dfsStack != [] ==> v in g.Adjacent(Top(s).id, Outbound))
  }

  lemma DiscoverKeeps(g: Digraph, s: Search, v: NodeId)
    requires Ready(g, s, v)
    ensures Inv(g, Discover(g, s, v))
  {
    hide Tables, Placed, Sorted, Ordered, PassedKnown, DoneKnown, ReachesAbove, ReachesBelow, Witnessed, Bounded, Agree, Descending, Connected;
    DiscoverTables(g, s, v);
    DiscoverPlaced(g, s, v);
    DiscoverSorted(g, s, v);
    DiscoverOrdered(g, s, v);
    DiscoverKnown(g, s, v);
    DiscoverAbove(g, s, v);
    DiscoverBelow(g, s, v);
    DiscoverWitnessed(g, s, v);
    DiscoverBounded(g, s, v);
  }

  // ----- Passing a visited neighbour -----

  lemma PassTables(g: Digraph, s: Search)
    requires Tables(g, s) && Placed(s) && Sorted(s)
    requires s.dfsStack != [] && Sound(g, s, Top(s)) && Top(s).branchIdx < |Top(s).branches|
    ensures Tables(g, Pass(s)) && Placed(Pass(s)) && Sorted(Pass(s))
  {
    var t := Pass(s);
    assert t.index == s.index && t.discIdx == s.discIdx && t.onStack == s.onStack && t.stack == s.stack && t.nodeToComp == s.nodeToComp;
    assert t.lowLink.Keys == s.lowLink.Keys;
    hide Pass, Sound, Digraph.Adjacent;
  }

  lemma PassOrdered(g: Digraph, s: Search)
    requires Ordered(g, s) && s.dfsStack != [] && Sound(g, s, Top(s)) && Top(s).branchIdx < |Top(s).branches|
    ensures Ordered(g, Pass(s))
  {
    var t := Pass(s);
    forall k | 0 <= k < |t.dfsStack|
      ensures Sound(g, t, t.dfsStack[k])
    {
      assert Sound(g, s, s.dfsStack[k]);
    }
  }

  /** The cursors after passing are the ones before, with the same vertices; only the top one moved. */
  lemma PassShape(g: Digraph, s: Search)
    requires Ordered(g, s) && s.dfsStack != [] && Sound(g, s, Top(s)) && Top(s).branchIdx < |Top(s).branches|
    ensures Pass(s).onStack == s.onStack && Pass(s).discIdx == s.discIdx && |Pass(s).dfsStack| == |s.dfsStack|
    ensures forall k :: 0 <= k < |s.dfsStack| ==> Pass(s).dfsStack[k].id == s.dfsStack[k].id
    ensures forall k :: 0 <= k < |s.dfsStack| - 1 ==> Pass(s).dfsStack[k] == s.dfsStack[k]
    ensures Top(Pass(s)) == Top(s).(branchIdx := Top(s).branchIdx + 1)
    ensures forall u :: Gray(s, u) <==> Gray(Pass(s), u)
  {
    var t := Pass(s);
    assert forall k :: 0 <= k < |s.dfsStack| ==> t.dfsStack[k].id == s.dfsStack[k].id;
    forall u
      ensures Gray(s, u) <==> Gray(t, u)
    {
      if Gray(s, u) {
        var k :| 0 <= k < |s.dfsStack| && s.dfsStack[k].id == u;
        assert t.dfsStack[k].id == u;
      }
    }
  }

  lemma PassKnown(g: Digraph, s: Search, known: set<NodeId>)
    requires Ordered(g, s) && s.dfsStack != [] && Sound(g, s, Top(s)) && Top(s).branchIdx < |Top(s).branches|
    requires Ordered(g, Pass(s)) && PassedKnown(g, s, known) && DoneKnown(g, s, known)
    requires Top(s).branches[Top(s).branchIdx] in known
    ensures PassedKnown(g, Pass(s), known) && DoneKnown(g, Pass(s), known)
  {
    var t := Pass(s);
    PassShape(g, s);
    var c := Top(s);
    assert c.branches[..c.branchIdx + 1] == c.branches[..c.branchIdx] + [c.branches[c.branchIdx]];
    forall k, w | 0 <= k < |t.dfsStack| && w in t.dfsStack[k].branches[..t.dfsStack[k].branchIdx]
      ensures w in known
    {
      if k < |s.dfsStack| - 1 {
        assert t.dfsStack[k] == s.dfsStack[k];
      }
    }
  }

  lemma PassAbove(g: Digraph, s: Search)
    requires Ordered(g, s) && s.dfsStack != [] && Sound(g, s, Top(s)) && Top(s).branchIdx < |Top(s).branches|
    requires Ordered(g, Pass(s)) && ReachesAbove(g, s)
    ensures ReachesAbove(g, Pass(s))
  {
    assert forall k :: 0 <= k < |s.dfsStack| ==> Pass(s).dfsStack[k].id == s.dfsStack[k].id;
  }

  lemma PassBelow(g: Digraph, s: Search)
    requires Ordered(g, s) && s.dfsStack != [] && Sound(g, s, Top(s)) && Top(s).branchIdx < |Top(s).branches|
    requires Ordered(g, Pass(s)) && ReachesBelow(g, s)
    ensures ReachesBelow(g, Pass(s))
  {
    var t := Pass(s);
    PassShape(g, s);
    hide Pass, Gray, Sound, Reaches;
    forall u | u in t.onStack
      ensures ReachesOpen(g, t, u)
    {
      assert ReachesOpen(g, s, u);
      var k: nat :| OpenAt(g, s, u, k);
      assert t.dfsStack[k].id == s.dfsStack[k].id;
      assert OpenAt(g, t, u, k);
    }
  }

  lemma PassWitnessed(g: Digraph, s: Search)
    requires Ordered(g, s) && s.dfsStack != [] && Sound(g, s, Top(s)) && Top(s).branchIdx < |Top(s).branches|
    requires Ordered(g, Pass(s)) && Witnessed(g, s)
    ensures Witnessed(g, Pass(s))
  {
    var t := Pass(s);
    PassShape(g, s);
    var x, w := Top(s).id, Top(s).branches[Top(s).branchIdx];
    forall k | 0 <= k < |t.dfsStack|
      ensures LowWitnessed(g, t, t.dfsStack[k].id)
    {
      assert LowWitnessed(g, s, s.dfsStack[k].id);
      if k == |s.dfsStack| - 1 && w in s.onStack && s.lowLink[x] > s.discIdx[w] {
        ReachesEdge(g, Outbound, x, w);
      } else {
        assert t.lowLink[t.dfsStack[k].id] == s.lowLink[s.dfsStack[k].id];
      }
    }
  }

  lemma PassBounded(g: Digraph, s: Search)
    requires Ordered(g, s) && s.dfsStack != [] && Sound(g, s, Top(s)) && Top(s).branchIdx < |Top(s).branches|
    requires Ordered(g, Pass(s)) && Bounded(g, s)
    ensures Bounded(g, Pass(s))
  {
    var t := Pass(s);
    PassShape(g, s);
    var c := Top(s);
    assert c.branches[..c.branchIdx + 1] == c.branches[..c.branchIdx] + [c.branches[c.branchIdx]];
    forall k, u, w | 0 <= k < |t.dfsStack| && InSegment(g, t, k, u) && w in t.onStack && Examined(g, t, k, u, w)
      ensures t.lowLink[t.dfsStack[k].id] <= t.discIdx[w]
    {
      assert t.lowLink[t.dfsStack[k].id] <= s.lowLink[s.dfsStack[k].id];
      assert InSegment(g, s, k, u);
      if !Examined(g, s, k, u, w) {
        assert k == |s.dfsStack| - 1 && u == c.id && w == c.branches[c.branchIdx];
      }
    }
  }

  lemma PassKeeps(g: Digraph, s: Search)
    requires Inv(g, s) && s.dfsStack != [] && Sound(g, s, Top(s)) && Top(s).branchIdx < |Top(s).branches|
    requires Top(s).branches[Top(s).branchIdx] in s.discIdx
    ensures Inv(g, Pass(s))
  {
    hide Tables, Placed, Sorted, Ordered, PassedKnown, DoneKnown, ReachesAbove, ReachesBelow, Witnessed, Bounded, Agree, Descending, Connected;
    PassTables(g, s);
    PassOrdered(g, s);
    PassKnown(g, s, s.discIdx.Keys);
    PassAbove(g, s);
    PassBelow(g, s);
    PassWitnessed(g, s);
    PassBounded(g, s);
  }

  lemma KnownMonotone(g: Digraph, s: Search, known: set<NodeId>, more: set<NodeId>)
    requires Ordered(g, s) && PassedKnown(g, s, known) && DoneKnown(g, s, known) && known <= more
    ensures PassedKnown(g, s, more) && DoneKnown(g, s, more)
  {
    hide Ordered, Gray;
  }

  /** Opening a descent from a node nobody visited yet. */
  lemma StartKeeps(g: Digraph, s: Search, v: NodeId)
    requires Inv(g, s) && s.dfsStack == [] && v in g.outbound && v !in s.discIdx
    ensures Inv(g, Discover(g, s, v))
  {
    hide Tables, Placed, Sorted, Ordered, PassedKnown, DoneKnown, ReachesAbove, ReachesBelow, Witnessed, Bounded, Agree, Descending, Connected, Discover;
    KnownMonotone(g, s, s.discIdx.Keys, s.discIdx.Keys + {v});
    DiscoverKeeps(g, s, v);
  }

  lemma AdvanceIsPass(g: Digraph, s: Search, v: NodeId)
    requires Inv(g, s) && s.dfsStack != [] && Sound(g, s, Top(s)) && Top(s).branchIdx < |Top(s).branches|
    requires v == Top(s).branches[Top(s).branchIdx] && v !in s.discIdx
    ensures Pass(s) == Advance(s)
  {
    hide Tables, Placed, Sorted, PassedKnown, DoneKnown, ReachesAbove, ReachesBelow, Witnessed, Bounded, Agree, Descending, Connected;
  }

  lemma OrderKnown(g: Digraph, v: NodeId)
    requires g.Valid() && v in g.order
    ensures v in g.outbound
  {
    assert v in g.Nodes();
  }

  lemma NeighbourKnown(g: Digraph, u: NodeId, v: NodeId)
    requires g.Valid() && v in g.Adjacent(u, Outbound)
    ensures v in g.outbound
  {
    assert v in g.inbound.Keys;
  }

  lemma PassReady(g: Digraph, s: Search, v: NodeId)
    requires Inv(g, s) && s.dfsStack != [] && Sound(g, s, Top(s)) && Top(s).branchIdx < |Top(s).branches|
    requires v == Top(s).branches[Top(s).branchIdx] && v !in s.discIdx && v in g.outbound
    ensures Ready(g, Pass(s), v)
  {
    hide Tables, Placed, Sorted, Ordered, PassedKnown, DoneKnown, ReachesAbove, ReachesBelow, Witnessed, Bounded, Agree, Descending, Connected;
    var known := s.discIdx.Keys + {v};
    KnownMonotone(g, s, s.discIdx.Keys, known);
    PassTables(g, s);
    PassOrdered(g, s);
    PassKnown(g, s, known);
    PassAbove(g, s);
    PassBelow(g, s);
    PassWitnessed(g, s);
    PassBounded(g, s);
  }

  /** Descending from the top vertex into a neighbour nobody visited yet. */
  lemma DescendKeeps(g: Digraph, s: Search)
    requires Inv(g, s) && s.dfsStack != [] && Sound(g, s, Top(s)) && Top(s).branchIdx < |Top(s).branches|
    requires Top(s).branches[Top(s).branchIdx] !in s.discIdx && Top(s).branches[Top(s).branchIdx] in g.outbound
    ensures Inv(g, Discover(g, Advance(s), Top(s).branches[Top(s).branchIdx]))
  {
    var v := Top(s).branches[Top(s).branchIdx];
    AdvanceIsPass(g, s, v);
    hide Inv, Ready, Discover, Pass, Advance;
    PassReady(g, s, v);
    DiscoverKeeps(g, Pass(s), v);
  }

  // ----- Leaving a vertex that is not a root -----

  /** The top cursor has tried every neighbour. */
  ghost predicate Exhausted(g: Digraph, s: Search) {
    && s.dfsStack != []
    && Sound(g, s, Top(s))
    && Top(s).branchIdx == |Top(s).branches|
    && (|s.dfsStack| > 1 ==> Sound(g, s, s.dfsStack[|s.dfsStack| - 2]))
  }

  lemma RetreatTables(g: Digraph, s: Search)
    requires Tables(g, s) && Placed(s) && Sorted(s) && Exhausted(g, s)
    ensures Tables(g, Retreat(s)) && Placed(Retreat(s)) && Sorted(Retreat(s))
  {
  }

  lemma TopWitnessed(g: Digraph, s: Search)
    requires Ordered(g, s) && Exhausted(g, s) && Witnessed(g, s)
    ensures LowWitnessed(g, s, Top(s).id)
  {
  }

  lemma RetreatOrdered(g: Digraph, s: Search)
    requires Ordered(g, s) && Exhausted(g, s)
    ensures Ordered(g, Retreat(s))
  {
    var t := Retreat(s);
    forall k | 0 <= k < |t.dfsStack|
      ensures Sound(g, t, t.dfsStack[k])
    {
      assert Sound(g, s, s.dfsStack[k]);
    }
  }

  lemma RetreatPassed(g: Digraph, s: Search)
    requires Ordered(g, s) && Exhausted(g, s) && Ordered(g, Retreat(s)) && PassedKnown(g, s, s.discIdx.Keys)
    ensures PassedKnown(g, Retreat(s), Retreat(s).discIdx.Keys)
  {
    assert forall k :: 0 <= k < |Retreat(s).dfsStack| ==> Retreat(s).dfsStack[k] == s.dfsStack[k];
  }

  lemma RetreatDone(g: Digraph, s: Search)
    requires Ordered(g, s) && Exhausted(g, s) && PassedKnown(g, s, s.discIdx.Keys) && DoneKnown(g, s, s.discIdx.Keys)
    ensures DoneKnown(g, Retreat(s), Retreat(s).discIdx.Keys)
  {
    var t := Retreat(s);
    var n := |s.dfsStack|;
    forall u, w | u in t.discIdx && !Gray(t, u) && w in g.Adjacent(u, Outbound)
      ensures w in t.discIdx
    {
      if Gray(s, u) {
        var k :| 0 <= k < n && s.dfsStack[k].id == u;
        assert k < n - 1 ==> t.dfsStack[k].id == u && Gray(t, u);
        assert s.dfsStack[k].branches[..s.dfsStack[k].branchIdx] == s.dfsStack[k].branches;
      }
    }
  }

  lemma RetreatAbove(g: Digraph, s: Search)
    requires Ordered(g, s) && Exhausted(g, s) && Ordered(g, Retreat(s)) && ReachesAbove(g, s)
    ensures ReachesAbove(g, Retreat(s))
  {
    assert forall k :: 0 <= k < |Retreat(s).dfsStack| ==> Retreat(s).dfsStack[k] == s.dfsStack[k];
  }

  /** A vertex whose link is below its own index reaches an open vertex strictly below it. */
  lemma LowerOpen(g: Digraph, s: Search) returns (k: nat)
    requires Ordered(g, s) && Exhausted(g, s) && ReachesBelow(g, s) && LowWitnessed(g, s, Top(s).id)
    requires s.lowLink[Top(s).id] < s.discIdx[Top(s).id]
    ensures k < |s.dfsStack| - 1 && s.discIdx[s.dfsStack[k].id] < s.discIdx[Top(s).id]
    ensures Reaches(g, Outbound, Top(s).id, s.dfsStack[k].id)
  {
    hide Reaches;
    var x := Top(s).id;
    var w :| w in s.onStack && s.discIdx[w] == s.lowLink[x] && Reaches(g, Outbound, x, w);
    assert ReachesOpen(g, s, w);
    hide ReachesBelow, LowWitnessed, Exhausted, Sound, Digraph.Adjacent;
    k :| OpenAt(g, s, w, k);
    ReachesTrans(g, Outbound, x, w, s.dfsStack[k].id);
  }

  lemma RetreatOpenAt(g: Digraph, s: Search, u: NodeId, k: nat)
    requires Ordered(g, s) && Exhausted(g, s) && Ordered(g, Retreat(s))
    requires u in s.onStack && OpenAt(g, s, u, k) && k < |s.dfsStack| - 1
    ensures OpenAt(g, Retreat(s), u, k)
  {
    hide Reaches, Sound;
  }

  lemma OpenAtLower(g: Digraph, s: Search, u: NodeId, k: nat, j: nat)
    requires Ordered(g, s) && Exhausted(g, s) && u in s.onStack && OpenAt(g, s, u, k) && k == |s.dfsStack| - 1
    requires j < k && Reaches(g, Outbound, Top(s).id, s.dfsStack[j].id)
    ensures OpenAt(g, s, u, j)
  {
    hide Reaches;
    ReachesTrans(g, Outbound, u, Top(s).id, s.dfsStack[j].id);
  }

  lemma RetreatBelow(g: Digraph, s: Search)
    requires Ordered(g, s) && Exhausted(g, s) && Ordered(g, Retreat(s)) && ReachesBelow(g, s)
    requires LowWitnessed(g, s, Top(s).id) && s.lowLink[Top(s).id] < s.discIdx[Top(s).id]
    ensures ReachesBelow(g, Retreat(s))
  {
    var j := LowerOpen(g, s);
    forall u | u in Retreat(s).onStack
      ensures ReachesOpen(g, Retreat(s), u)
    {
      assert ReachesOpen(g, s, u);
      hide Reaches, OpenAt, LowWitnessed, Exhausted;
      var k: nat :| OpenAt(g, s, u, k);
      assert k < |s.dfsStack| by {
        OpenAtInRange(g, s, u, k);
      }
      if k == |s.dfsStack| - 1 {
        OpenAtLower(g, s, u, k, j);
        RetreatOpenAt(g, s, u, j);
      } else {
        RetreatOpenAt(g, s, u, k);
      }
    }
  }

  lemma OpenAtInRange(g: Digraph, s: Search, u: NodeId, k: nat)
    requires Ordered(g, s) && u in s.discIdx && OpenAt(g, s, u, k)
    ensures k < |s.dfsStack|
  {
  }

  lemma RetreatWitnessed(g: Digraph, s: Search)
    requires Ordered(g, s) && Exhausted(g, s) && Ordered(g, Retreat(s)) && Witnessed(g, s) && ReachesAbove(g, s)
    ensures Witnessed(g, Retreat(s))
  {
    var t := Retreat(s);
    var x, n := Top(s).id, |s.dfsStack|;
    forall k | 0 <= k < |t.dfsStack|
      ensures LowWitnessed(g, t, t.dfsStack[k].id)
    {
      var y := s.dfsStack[k].id;
      assert LowWitnessed(g, s, y);
      if t.lowLink[y] != s.lowLink[y] {
        assert LowWitnessed(g, s, x);
        var w :| w in s.onStack && s.discIdx[w] == s.lowLink[x] && Reaches(g, Outbound, x, w);
        assert Reaches(g, Outbound, y, x);
        ReachesTrans(g, Outbound, y, x, w);
      }
    }
  }

  lemma RetreatBounded(g: Digraph, s: Search)
    requires Ordered(g, s) && Exhausted(g, s) && Ordered(g, Retreat(s)) && Bounded(g, s)
    ensures Bounded(g, Retreat(s))
  {
    var t := Retreat(s);
    var x, n := Top(s).id, |s.dfsStack|;
    forall k, u, w | 0 <= k < |t.dfsStack| && InSegment(g, t, k, u) && w in t.onStack && Examined(g, t, k, u, w)
      ensures t.lowLink[t.dfsStack[k].id] <= t.discIdx[w]
    {
      assert t.dfsStack[k] == s.dfsStack[k];
      assert t.lowLink[t.dfsStack[k].id] <= s.lowLink[s.dfsStack[k].id];
      if k == n - 2 && s.discIdx[x] <= s.discIdx[u] {
        assert InSegment(g, s, n - 1, u);
        assert Top(s).branches[..Top(s).branchIdx] == Top(s).branches;
        assert Examined(g, s, n - 1, u, w);
        assert t.lowLink[t.dfsStack[k].id] <= s.lowLink[x];
      } else {
        assert InSegment(g, s, k, u) && Examined(g, s, k, u, w);
      }
    }
  }

  lemma RetreatKeeps(g: Digraph, s: Search)
    requires Inv(g, s) && Exhausted(g, s) && s.lowLink[Top(s).id] < s.discIdx[Top(s).id]
    ensures Inv(g, Retreat(s))
  {
    hide Tables, Placed, Sorted, Ordered, PassedKnown, DoneKnown, ReachesAbove, ReachesBelow, Witnessed, Bounded, Agree, Descending, Connected;
    RetreatTables(g, s);
    TopWitnessed(g, s);
    RetreatOrdered(g, s);
    RetreatPassed(g, s);
    RetreatDone(g, s);
    RetreatAbove(g, s);
    RetreatBelow(g, s);
    RetreatWitnessed(g, s);
    RetreatBounded(g, s);
  }

  // ----- Closing a component -----

  /** The exhausted top vertex is a root and sits at stack position `p`. */
  ghost predicate AtRoot(g: Digraph, s: Search, p: nat) {
    && Exhausted(g, s)
    && p < |s.stack| && s.stack[p] == Top(s).id
    && s.lowLink[Top(s).id] == s.discIdx[Top(s).id]
  }

  function Close(s: Search, p: nat): Search
    requires s.dfsStack != [] && Top(s).id in s.lowLink
    requires |s.dfsStack| > 1 ==> s.dfsStack[|s.dfsStack| - 2].id in s.lowLink
    requires p <= |s.stack|
  {
    Unwind(Retreat(s), p)
  }

  /** Handing a root's link to its parent changes nothing. */
  lemma RootRetreat(g: Digraph, s: Search, p: nat)
    requires Ordered(g, s) && Witnessed(g, s) && AtRoot(g, s, p)
    ensures Retreat(s) == s.(dfsStack := s.dfsStack[..|s.dfsStack| - 1])
  {
    if |s.dfsStack| > 1 {
      assert LowWitnessed(g, s, s.dfsStack[|s.dfsStack| - 2].id);
    }
  }

  /** From position `p` up the stack holds exactly the vertices discovered no earlier than the root. */
  lemma StackSuffix(g: Digraph, s: Search, p: nat, v: NodeId)
    requires Placed(s) && Sorted(s) && AtRoot(g, s, p)
    ensures v in s.stack[p..] <==> v in s.onStack && v in s.discIdx && s.discIdx[Top(s).id] <= s.discIdx[v]
    ensures v in s.stack[..p] <==> v in s.onStack && v in s.discIdx && s.discIdx[v] < s.discIdx[Top(s).id]
  {
    if v in s.onStack {
      var i :| 0 <= i < |s.stack| && s.stack[i] == v;
      if i < p {
        assert v == s.stack[..p][i];
      } else {
        assert v == s.stack[p..][i - p];
      }
    }
  }

  /** Discovered before the vertex of the top cursor. */
  ghost predicate Early(s: Search, v: NodeId)
    requires s.dfsStack != []
  {
    v in s.discIdx && Top(s).id in s.discIdx && s.discIdx[v] < s.discIdx[Top(s).id]
  }

  /** `t` is `s` after its top cursor was dropped and everything that is not `Early` became the next component. */
  ghost predicate Closing(s: Search, t: Search)
    requires s.dfsStack != []
  {
    && t.index == s.index && t.discIdx == s.discIdx && t.lowLink == s.lowLink
    && t.dfsStack == s.dfsStack[..|s.dfsStack| - 1]
    && (forall v :: v in t.onStack <==> v in s.onStack && Early(s, v))
    && (forall v :: v in t.nodeToComp <==> v in s.nodeToComp || (v in s.onStack && !Early(s, v)))
    && (forall v :: v in t.nodeToComp ==> t.nodeToComp[v] == if v in s.nodeToComp then s.nodeToComp[v] else |s.components|)
    && |t.components| == |s.components| + 1
    && (forall i :: 0 <= i < |s.components| ==> t.components[i] == s.components[i])
    && (forall v :: v in t.components[|s.components|] <==> v in s.onStack && !Early(s, v))
  }

  lemma UnwindIsClosing(s: Search, p: nat)
    requires s.dfsStack != [] && p <= |s.stack| && forall v :: v in s.stack[p..] <==> v in s.onStack && !Early(s, v)
    requires Placed(s)
    ensures Closing(s, Unwind(s.(dfsStack := s.dfsStack[..|s.dfsStack| - 1]), p))
  {
    hide Early;
  }

  lemma CloseIsClosing(g: Digraph, s: Search, p: nat)
    requires Placed(s) && Sorted(s) && Ordered(g, s) && Witnessed(g, s) && AtRoot(g, s, p)
    ensures Closing(s, Close(s, p)) && Close(s, p).stack == s.stack[..p] && Close(s, p).discIdx == s.discIdx
  {
    hide Ordered, Witnessed, Closing;
    RootRetreat(g, s, p);
    forall v
      ensures v in s.stack[p..] <==> v in s.onStack && !Early(s, v)
    {
      StackSuffix(g, s, p, v);
    }
    hide Placed, Sorted, Early;
    UnwindIsClosing(s, p);
  }

  lemma CloseSorted(s: Search, p: nat, t: Search)
    requires Sorted(s) && p <= |s.stack| && t.stack == s.stack[..p] && t.discIdx == s.discIdx
    ensures Sorted(t)
  {
  }

  lemma ClosePlaced(g: Digraph, s: Search, p: nat, t: Search)
    requires Placed(s) && Sorted(s) && AtRoot(g, s, p) && Closing(s, t) && t.stack == s.stack[..p]
    ensures Placed(t)
  {
    forall v
      ensures v in t.stack <==> v in s.onStack && Early(s, v)
    {
      StackSuffix(g, s, p, v);
    }
    hide Sorted, AtRoot, Early;
  }

  lemma CloseOrdered(g: Digraph, s: Search, t: Search)
    requires Ordered(g, s) && Exhausted(g, s) && Closing(s, t)
    ensures Ordered(g, t)
  {
    forall k | 0 <= k < |t.dfsStack|
      ensures Sound(g, t, t.dfsStack[k])
    {
      assert Sound(g, s, s.dfsStack[k]) && Early(s, s.dfsStack[k].id);
    }
  }

  lemma CloseKnown(g: Digraph, s: Search, t: Search)
    requires Ordered(g, s) && Exhausted(g, s) && Closing(s, t) && Ordered(g, t)
    requires PassedKnown(g, s, s.discIdx.Keys) && DoneKnown(g, s, s.discIdx.Keys)
    ensures PassedKnown(g, t, t.discIdx.Keys) && DoneKnown(g, t, t.discIdx.Keys)
  {
    RetreatOrdered(g, s);
    RetreatPassed(g, s);
    RetreatDone(g, s);
    assert t.dfsStack == Retreat(s).dfsStack;
    hide Ordered, PassedKnown, DoneKnown;
    assert forall u :: Gray(t, u) <==> Gray(Retreat(s), u);
  }

  lemma CloseAbove(g: Digraph, s: Search, t: Search)
    requires Ordered(g, s) && s.dfsStack != [] && Closing(s, t) && Ordered(g, t) && ReachesAbove(g, s)
    ensures ReachesAbove(g, t)
  {
    assert forall k :: 0 <= k < |t.dfsStack| ==> t.dfsStack[k] == s.dfsStack[k];
  }

  lemma CloseOpenAt(g: Digraph, s: Search, t: Search, u: NodeId, k: nat)
    requires Ordered(g, s) && s.dfsStack != [] && Closing(s, t) && Ordered(g, t)
    requires u in t.onStack && u in s.onStack && Early(s, u) && OpenAt(g, s, u, k)
    ensures OpenAt(g, t, u, k)
  {
    hide Reaches;
  }

  lemma CloseBelow(g: Digraph, s: Search, t: Search)
    requires Ordered(g, s) && s.dfsStack != [] && Closing(s, t) && Ordered(g, t) && ReachesBelow(g, s)
    ensures ReachesBelow(g, t)
  {
    forall u | u in t.onStack
      ensures ReachesOpen(g, t, u)
    {
      hide Early, OpenAt;
      assert ReachesOpen(g, s, u);
      var k: nat :| OpenAt(g, s, u, k);
      CloseOpenAt(g, s, t, u, k);
    }
  }

  lemma CloseWitnessed(g: Digraph, s: Search, t: Search)
    requires Ordered(g, s) && Exhausted(g, s) && Closing(s, t) && Ordered(g, t) && Witnessed(g, s)
    ensures Witnessed(g, t)
  {
    hide Reaches;
    forall k | 0 <= k < |t.dfsStack|
      ensures LowWitnessed(g, t, t.dfsStack[k].id)
    {
      var y := s.dfsStack[k].id;
      assert LowWitnessed(g, s, y);
      var w :| w in s.onStack && s.discIdx[w] == s.lowLink[y] && Reaches(g, Outbound, y, w);
      assert Early(s, w);
    }
  }

  lemma CloseBounded(g: Digraph, s: Search, t: Search)
    requires Ordered(g, s) && Exhausted(g, s) && Closing(s, t) && Ordered(g, t) && Bounded(g, s)
    ensures Bounded(g, t)
  {
    forall k, u, w | 0 <= k < |t.dfsStack| && InSegment(g, t, k, u) && w in t.onStack && Examined(g, t, k, u, w)
      ensures t.lowLink[t.dfsStack[k].id] <= t.discIdx[w]
    {
      assert t.dfsStack[k] == s.dfsStack[k] && Early(s, u) && Early(s, w);
      assert InSegment(g, s, k, u) && Examined(g, s, k, u, w);
    }
  }

  lemma CloseAgree(g: Digraph, s: Search, t: Search)
    requires Placed(s) && Exhausted(g, s) && Closing(s, t) && Agree(s.components, s.nodeToComp)
    ensures Agree(t.components, t.nodeToComp)
  {
    assert Top(s).id in t.components[|s.components|];
    hide Early;
  }

  /** An edge that leaves a vertex discovered no earlier than the root ends in the new component or an older one. */
  lemma CloseEdge(g: Digraph, s: Search, p: nat, v: NodeId, w: NodeId)
    requires Placed(s) && Ordered(g, s) && AtRoot(g, s, p) && Bounded(g, s)
    requires PassedKnown(g, s, s.discIdx.Keys) && DoneKnown(g, s, s.discIdx.Keys)
    requires v in s.onStack && !Early(s, v) && w in g.Adjacent(v, Outbound)
    ensures w in s.nodeToComp || (w in s.onStack && !Early(s, w))
  {
    var n := |s.dfsStack|;
    assert Top(s).branches[..Top(s).branchIdx] == Top(s).branches;
    assert w in s.discIdx by {
      if Gray(s, v) {
        var k :| 0 <= k < n && s.dfsStack[k].id == v;
        assert k == n - 1;
        assert w in s.dfsStack[k].branches[..s.dfsStack[k].branchIdx];
      }
    }
    if w in s.onStack {
      assert InSegment(g, s, n - 1, v) && Examined(g, s, n - 1, v, w);
    }
  }

  lemma CloseDescending(g: Digraph, s: Search, p: nat, t: Search)
    requires Placed(s) && Ordered(g, s) && AtRoot(g, s, p) && Bounded(g, s) && Closing(s, t)
    requires PassedKnown(g, s, s.discIdx.Keys) && DoneKnown(g, s, s.discIdx.Keys)
    requires Agree(s.components, s.nodeToComp) && Descending(g, s.nodeToComp)
    ensures Descending(g, t.nodeToComp)
  {
    hide PassedKnown, DoneKnown, Bounded, Ordered, Early, Placed, Digraph.Adjacent;
    forall v, w | v in t.nodeToComp && w in g.Adjacent(v, Outbound)
      ensures w in t.nodeToComp && t.nodeToComp[w] <= t.nodeToComp[v]
    {
      if v !in s.nodeToComp {
        CloseEdge(g, s, p, v, w);
      }
    }
  }

  lemma OpenReachesTop(g: Digraph, s: Search, v: NodeId, k: nat)
    requires Ordered(g, s) && s.dfsStack != [] && Sound(g, s, Top(s)) && ReachesAbove(g, s) && v in s.discIdx && OpenAt(g, s, v, k)
    ensures Reaches(g, Outbound, v, Top(s).id)
  {
    assert s.discIdx[s.dfsStack[k].id] <= s.discIdx[Top(s).id];
    ReachesTrans(g, Outbound, v, s.dfsStack[k].id, Top(s).id);
  }

  lemma TopReaches(g: Digraph, s: Search, w: NodeId)
    requires Ordered(g, s) && s.dfsStack != [] && ReachesAbove(g, s) && w in s.onStack && !Early(s, w)
    ensures Sound(g, s, Top(s)) && Reaches(g, Outbound, Top(s).id, w)
  {
    assert Sound(g, s, s.dfsStack[|s.dfsStack| - 1]);
  }

  /** Vertices discovered no earlier than the top one reach each other. */
  lemma SegmentConnected(g: Digraph, s: Search, v: NodeId, w: NodeId)
    requires Ordered(g, s) && s.dfsStack != [] && ReachesAbove(g, s) && ReachesBelow(g, s)
    requires v in s.onStack && v in s.discIdx && w in s.onStack && !Early(s, w)
    ensures Reaches(g, Outbound, v, w)
  {
    hide Reaches, OpenAt, ReachesAbove, Ordered, Early, Sound;
    assert ReachesOpen(g, s, v);
    TopReaches(g, s, w);
    var k: nat :| OpenAt(g, s, v, k);
    OpenReachesTop(g, s, v, k);
    ReachesTrans(g, Outbound, v, Top(s).id, w);
  }

  lemma CloseConnected(g: Digraph, s: Search, t: Search)
    requires Ordered(g, s) && s.dfsStack != [] && Closing(s, t)
    requires ReachesAbove(g, s) && ReachesBelow(g, s) && Agree(s.components, s.nodeToComp) && Connected(g, s.nodeToComp)
    ensures Connected(g, t.nodeToComp)
  {
    assert forall v :: v in s.onStack ==> v in s.discIdx;
    hide ReachesAbove, ReachesBelow, Ordered, Early, Reaches;
    forall v, w | v in t.nodeToComp && w in t.nodeToComp && t.nodeToComp[v] == t.nodeToComp[w]
      ensures Reaches(g, Outbound, v, w)
    {
      if v !in s.nodeToComp {
        SegmentConnected(g, s, v, w);
      }
    }
  }

  lemma CloseTables(g: Digraph, s: Search, t: Search)
    requires Tables(g, s) && s.dfsStack != [] && Closing(s, t)
    ensures Tables(g, t)
  {
  }

  lemma CloseKeeps(g: Digraph, s: Search, p: nat)
    requires Inv(g, s) && AtRoot(g, s, p)
    ensures Inv(g, Close(s, p))
  {
    hide Tables, Placed, Sorted, Ordered, PassedKnown, DoneKnown, ReachesAbove, ReachesBelow, Witnessed, Bounded, Agree, Descending, Connected, Close, Closing;
    var t := Close(s, p);
    CloseIsClosing(g, s, p);
    CloseTables(g, s, t);
    CloseSorted(s, p, t);
    ClosePlaced(g, s, p, t);
    CloseOrdered(g, s, t);
    CloseKnown(g, s, t);
    CloseAbove(g, s, t);
    CloseBelow(g, s, t);
    CloseWitnessed(g, s, t);
    CloseBounded(g, s, t);
    CloseAgree(g, s, t);
    CloseDescending(g, s, p, t);
    CloseConnected(g, s, t);
  }

  // ----- The loop -----

  /** `components` are the strongly connected components of `g`, numbered so that edges never climb. */
  ghost predicate IsDecomposition(g: Digraph, components: seq<set<NodeId>>, nodeToComp: map<NodeId, nat>) {
    && nodeToComp.Keys == g.Nodes()
    && Agree(components, nodeToComp)
    && (forall u, v :: u in nodeToComp && v in nodeToComp ==>
                         (nodeToComp[u] == nodeToComp[v] <==> Reaches(g, Outbound, u, v) && Reaches(g, Outbound, v, u)))
    && Descending(g, nodeToComp)
  }

  /** A node reaches only nodes of its own component or of lower ones. */
  lemma ReachesDescends(g: Digraph, nodeToComp: map<NodeId, nat>, u: NodeId, v: NodeId)
    requires Descending(g, nodeToComp) && u in nodeToComp && Reaches(g, Outbound, u, v)
    ensures v in nodeToComp && nodeToComp[v] <= nodeToComp[u]
  {
    var below := set w | w in nodeToComp && nodeToComp[w] <= nodeToComp[u];
    ClosedReaches(g, Outbound, below, u, v);
  }

  /** With no cursor left every visited vertex has its component. */
  lemma Drained(g: Digraph, s: Search)
    requires g.Valid() && Tables(g, s) && Placed(s) && Ordered(g, s) && ReachesBelow(g, s) && s.dfsStack == []
    requires forall v :: v in g.order ==> v in s.discIdx
    ensures s.nodeToComp.Keys == g.Nodes()
  {
    assert forall v :: v in s.onStack ==> ReachesOpen(g, s, v);
  }

  lemma SameComponentIff(g: Digraph, components: seq<set<NodeId>>, nodeToComp: map<NodeId, nat>)
    requires nodeToComp.Keys == g.Nodes() && Agree(components, nodeToComp) && Descending(g, nodeToComp) && Connected(g, nodeToComp)
    ensures IsDecomposition(g, components, nodeToComp)
  {
    hide Agree, Descending, Reaches;
    forall u, v | u in nodeToComp && v in nodeToComp && Reaches(g, Outbound, u, v) && Reaches(g, Outbound, v, u)
      ensures nodeToComp[u] == nodeToComp[v]
    {
      ReachesDescends(g, nodeToComp, u, v);
      ReachesDescends(g, nodeToComp, v, u);
    }
  }

  lemma DecompositionFound(g: Digraph, s: Search)
    requires g.Valid() && Inv(g, s) && s.dfsStack == [] && forall v :: v in g.order ==> v in s.discIdx
    ensures IsDecomposition(g, s.components, s.nodeToComp)
  {
    hide Tables, Placed, Sorted, Ordered, PassedKnown, DoneKnown, ReachesAbove, ReachesBelow, Witnessed, Bounded, Agree, Descending, Connected, IsDecomposition;
    Drained(g, s);
    SameComponentIff(g, s.components, s.nodeToComp);
  }

  lemma EmptyInv(g: Digraph)
    ensures Inv(g, Search(0, map[], map[], {}, [], [], [], map[]))
  {
  }

  lemma TopFacts(g: Digraph, s: Search)
    requires Inv(g, s) && s.dfsStack != []
    ensures Sound(g, s, Top(s)) && (|s.dfsStack| > 1 ==> Sound(g, s, s.dfsStack[|s.dfsStack| - 2]))
    ensures s.lowLink[Top(s).id] <= s.discIdx[Top(s).id]
    ensures |s.dfsStack| > 1 ==> s.dfsStack[|s.dfsStack| - 2].id != Top(s).id
  {
    hide Tables, Placed, Sorted, PassedKnown, DoneKnown, ReachesAbove, ReachesBelow, Bounded, Agree, Descending, Connected;
    assert LowWitnessed(g, s, Top(s).id);
  }

  lemma RootPosition(g: Digraph, s: Search) returns (p: nat)
    requires Inv(g, s) && Exhausted(g, s) && s.lowLink[Top(s).id] == s.discIdx[Top(s).id]
    ensures AtRoot(g, s, p) && forall i :: 0 <= i < |s.stack| && s.stack[i] == Top(s).id ==> i == p
  {
    hide Tables, Ordered, PassedKnown, DoneKnown, ReachesAbove, ReachesBelow, Witnessed, Bounded, Agree, Descending, Connected;
    p :| 0 <= p < |s.stack| && s.stack[p] == Top(s).id;
  }

  function Members(stack: seq<NodeId>, p: nat): set<NodeId>
    requires p <= |stack|
  {
    set v | v in stack[p..]
  }

  lemma MembersGrow(stack: seq<NodeId>, p: nat)
    requires p < |stack|
    ensures Members(stack, p) == Members(stack, p + 1) + {stack[p]}
  {
    assert stack[p..] == [stack[p]] + stack[p + 1..];
  }

  function Assigned(nodeToComp: map<NodeId, nat>, members: set<NodeId>, compIdx: nat): map<NodeId, nat> {
    map v | v in nodeToComp.Keys + members :: if v in members then compIdx else nodeToComp[v]
  }

  lemma AssignedGrow(nodeToComp: map<NodeId, nat>, members: set<NodeId>, compIdx: nat, v: NodeId)
    ensures Assigned(nodeToComp, members + {v}, compIdx) == Assigned(nodeToComp, members, compIdx)[v := compIdx]
  {
  }

  /** Pops the Tarjan stack down to `root` and records what was popped as the next component. */
  method UnwindStack(r: Search, root: NodeId, ghost p: nat) returns (t: Search)
    requires p < |r.stack| && forall i :: 0 <= i < |r.stack| ==> (r.stack[i] == root <==> i == p)
    ensures t == Unwind(r, p)
  {
    hide Members, Assigned;
    var stack, onStack, nodeToComp := r.stack, r.onStack, r.nodeToComp;
    var compBitmap: set<NodeId> := {};
    var compIdx := |r.components|;
    assert compBitmap == Members(r.stack, |stack|) && nodeToComp == Assigned(r.nodeToComp, compBitmap, compIdx) by {
      UnwindNothing(r);
    }
    while true
      invariant p < |stack| <= |r.stack| && stack == r.stack[..|stack|]
      invariant compBitmap == Members(r.stack, |stack|)
      invariant onStack == r.onStack - compBitmap
      invariant nodeToComp == Assigned(r.nodeToComp, compBitmap, compIdx)
      decreases |stack|
    {
      var top := stack[|stack| - 1];
      stack := stack[..|stack| - 1];
      MembersGrow(r.stack, |stack|);
      AssignedGrow(r.nodeToComp, compBitmap, compIdx, top);
      onStack := onStack - {top};
      compBitmap := compBitmap + {top};
      nodeToComp := nodeToComp[top := compIdx];
      if top == root {
        break;
      }
    }
    t := r.(stack := stack, onStack := onStack, components := r.components + [compBitmap], nodeToComp := nodeToComp);
  }

  lemma UnwindNothing(r: Search)
    ensures Members(r.stack, |r.stack|) == {} && Assigned(r.nodeToComp, {}, |r.components|) == r.nodeToComp
  {
  }

  /** All neighbours processed: pop the cursor, propagate its low link and, at a root, unwind the Tarjan stack. */
  method FinishVertex(g: Digraph, s: Search) returns (t: Search)
    requires Inv(g, s) && Exhausted(g, s)
    ensures Inv(g, t) && t.discIdx == s.discIdx && |t.dfsStack| == |s.dfsStack| - 1
  {
    hide Inv, Digraph.Adjacent;
    TopFacts(g, s);
    var nextEntry := Top(s);
    t := s.(dfsStack := s.dfsStack[..|s.dfsStack| - 1]);
    if |t.dfsStack| > 0 {
      var parent := Top(t).id;
      if t.lowLink[parent] > t.lowLink[nextEntry.id] {
        t := t.(lowLink := t.lowLink[parent := t.lowLink[nextEntry.id]]);
      }
    }
    if t.lowLink[nextEntry.id] == t.discIdx[nextEntry.id] {
      ghost var p := RootPosition(g, s);
      t := UnwindStack(t, nextEntry.id, p);
      CloseKeeps(g, s, p);
    } else {
      RetreatKeeps(g, s);
    }
  }

  method StronglyConnectedComponents(g: Digraph) returns (components: seq<set<NodeId>>, nodeToComp: map<NodeId, nat>)
    requires g.Valid()
    ensures IsDecomposition(g, components, nodeToComp)
  {
    hide Inv, IsDecomposition, Digraph.Valid, Digraph.Adjacent;
    var s := Search(0, map[], map[], {}, [], [], [], map[]);
    EmptyInv(g);
    for i := 0 to |g.order|
      invariant s.dfsStack == [] && Inv(g, s)
      invariant forall j :: 0 <= j < i ==> g.order[j] in s.discIdx
    {
      var start := g.order[i];
      if start in s.discIdx {
        continue;
      }
      ghost var seen := s.discIdx.Keys + {start};
      OrderKnown(g, start);
      StartKeeps(g, s, start);
      s := s.(dfsStack := s.dfsStack + [Open(g, start)]);
      s := TarjanPush(s, start);

      while |s.dfsStack| > 0
        invariant Inv(g, s) && seen <= s.discIdx.Keys
        decreases g.outbound.Keys - s.discIdx.Keys, |s.dfsStack|, if s.dfsStack == [] then 0 else |Top(s).branches| - Top(s).branchIdx
      {
        ghost var before := s;
        TopFacts(g, s);
        var nextEntry := Top(s);
        if nextEntry.branchIdx < |nextEntry.branches| {
          var neighbour := nextEntry.branches[nextEntry.branchIdx];
          s := s.(dfsStack := s.dfsStack[..|s.dfsStack| - 1] + [nextEntry.(branchIdx := nextEntry.branchIdx + 1)]);
          if neighbour !in s.discIdx {
            NeighbourKnown(g, nextEntry.id, neighbour);
            DescendKeeps(g, before);
            assert neighbour in g.outbound.Keys - before.discIdx.Keys;
            s := s.(dfsStack := s.dfsStack + [Open(g, neighbour)]);
            s := TarjanPush(s, neighbour);
          } else {
            PassKeeps(g, before);
            if neighbour in s.onStack {
              if s.lowLink[nextEntry.id] > s.discIdx[neighbour] {
                s := s.(lowLink := s.lowLink[nextEntry.id := s.discIdx[neighbour]]);
              }
            }
          }
        } else {
          s := FinishVertex(g, s);
        }
      }
    }
    DecompositionFound(g, s);
    return s.components, s.nodeToComp;
  }
}
