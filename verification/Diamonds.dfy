/** The diamond that spoils a reach cache, and the exact bound on the capacity up to which no graph does. */
module Diamonds {
  import opened Sequences
  import opened Digraphs
  import opened Optional
  import opened SieveCache
  import opened ReachSearch
  import opened ReachCalls
  import opened DiamondSearches
  import StronglyConnected
  import opened Csr
  import opened Components

  /** 4 leads to 2 and 3, both lead to 1, and 1 leads to 0. */
  function Next(n: NodeId): seq<NodeId> {
    match n
    case 4 => [2, 3]
    case 3 => [1]
    case 2 => [1]
    case 1 => [0]
    case _ => []
  }

  function Prior(n: NodeId): seq<NodeId> {
    match n
    case 3 => [4]
    case 2 => [4]
    case 1 => [2, 3]
    case 0 => [1]
    case _ => []
  }

  function Diamond(): Digraph {
    Digraph([0, 1, 2, 3, 4], map n: NodeId | n < 5 :: Next(n), map n: NodeId | n < 5 :: Prior(n))
  }

  // ----- The diamond is its own component graph -----

  function Identity(): map<NodeId, nat> {
    map[0 := 0, 1 := 1, 2 := 2, 3 := 3, 4 := 4]
  }

  lemma IdentityAt(n: NodeId)
    ensures n in Identity() <==> n < 5
    ensures n < 5 ==> Identity()[n] == n
  {
  }

  lemma IdentityKeys()
    ensures forall n: NodeId :: n in Identity().Keys <==> n < 5
    ensures forall n: NodeId :: n in Identity() ==> Identity()[n] == n
  {
    forall n: NodeId
      ensures n in Identity().Keys <==> n < 5
      ensures n in Identity() ==> Identity()[n] == n
    {
      IdentityAt(n);
    }
  }

  function DiamondRows(): CsrDigraph {
    CsrDigraph(Identity(), [0, 1, 2, 3, 4], [0, 0, 1, 2, 3, 5], [0, 1, 1, 2, 3], [0, 1, 3, 4, 5, 5], [1, 2, 3, 4, 4])
  }

  function DiamondGraph(): ComponentGraph {
    ComponentGraph([{0}, {1}, {2}, {3}, {4}], Identity(), DiamondRows())
  }

  lemma FirstFive(s: seq<NodeId>, n: NodeId)
    requires s == [0, 1, 2, 3, 4]
    ensures n in s <==> n < 5
    ensures n < 5 ==> s[n] == n
  {
    assert n < 5 ==> s[n] == n;
  }

  lemma NextPrior(u: NodeId, v: NodeId)
    ensures v in Next(u) <==> u in Prior(v)
    ensures v in Next(u) ==> v < u < 5
  {
  }

  lemma DiamondRowsValid()
    ensures DiamondRows().Valid()
  {
    var r := DiamondRows();
    forall n: NodeId
      ensures n in r.denseIdxToID <==> n < 5
      ensures n < 5 ==> r.denseIdxToID[n] == n
    {
      FirstFive(r.denseIdxToID, n);
    }
    assert Inverse(r.idToDenseIdx, r.denseIdxToID);
    Steady(r.outOffsets);
    Steady(r.inOffsets);
  }

  lemma Steady(o: seq<nat>)
    requires |o| == 6 && o[0] == 0 && o[0] <= o[1] <= o[2] <= o[3] <= o[4] <= o[5]
    ensures Monotone(o, 5)
  {
  }

  lemma DiamondOut(i: nat)
    requires i < 5
    ensures Row([0, 0, 1, 2, 3, 5], [0, 1, 1, 2, 3], i) == Next(i)
  {
  }

  lemma DiamondIn(i: nat)
    requires i < 5
    ensures Row([0, 1, 3, 4, 5, 5], [1, 2, 3, 4, 4], i) == Prior(i)
  {
  }

  lemma DiamondViewAt(i: nat)
    requires i < 5 && DiamondRows().Valid()
    ensures i in DiamondRows().View().outbound && DiamondRows().View().outbound[i] == Next(i)
    ensures i in DiamondRows().View().inbound && DiamondRows().View().inbound[i] == Prior(i)
  {
    DiamondOut(i);
    DiamondIn(i);
    hide Row, Next, Prior;
  }

  lemma ViewShape()
    requires DiamondRows().Valid()
    ensures DiamondRows().View().order == Diamond().order
    ensures DiamondRows().View().outbound.Keys == Identity().Keys == DiamondRows().View().inbound.Keys
  {
    hide CsrDigraph.Valid, Row, Next, Prior;
  }

  lemma DiamondMaps()
    ensures Diamond().outbound.Keys == Identity().Keys == Diamond().inbound.Keys
    ensures forall n: NodeId :: n < 5 ==> Diamond().outbound[n] == Next(n) && Diamond().inbound[n] == Prior(n)
  {
    IdentityKeys();
    hide Identity, Next, Prior;
  }

  lemma SameDigraph(a: Digraph, b: Digraph)
    requires a.order == b.order && a.outbound.Keys == b.outbound.Keys && a.inbound.Keys == b.inbound.Keys
    requires forall n: NodeId :: n in a.outbound ==> a.outbound[n] == b.outbound[n]
    requires forall n: NodeId :: n in a.inbound ==> a.inbound[n] == b.inbound[n]
    ensures a == b
  {
    assert a.outbound == b.outbound;
    assert a.inbound == b.inbound;
  }

  lemma ViewIsDiamond()
    requires DiamondRows().Valid()
    ensures DiamondRows().View() == Diamond()
  {
    hide CsrDigraph.Valid, CsrDigraph.View, Next, Prior, DiamondRows, Diamond, Identity;
    var v := DiamondRows().View();
    ViewShape();
    DiamondMaps();
    IdentityKeys();
    forall i: nat | i in Identity().Keys
      ensures v.outbound[i] == Next(i) && v.inbound[i] == Prior(i)
    {
      DiamondViewAt(i);
    }
    SameDigraph(v, Diamond());
  }

  lemma DiamondView()
    ensures DiamondRows().Valid() && Dag(DiamondGraph()) == Diamond()
  {
    hide CsrDigraph.Valid, CsrDigraph.View, DiamondRows, Diamond, Identity;
    DiamondRowsValid();
    ViewIsDiamond();
  }

  lemma DiamondNodes()
    ensures Diamond().Nodes() == Identity().Keys && forall n: NodeId :: n in Diamond().order <==> n < 5
  {
    IdentityKeys();
    forall n: NodeId
      ensures n in Diamond().order <==> n < 5
    {
      FirstFive(Diamond().order, n);
    }
    hide Identity;
  }

  lemma DiamondOrder()
    ensures forall i, j :: 0 <= i < j < |Diamond().order| ==> Diamond().order[i] != Diamond().order[j]
  {
  }

  lemma DiamondValid()
    ensures Diamond().Valid()
  {
    var g := Diamond();
    DiamondNodes();
    DiamondMaps();
    IdentityKeys();
    DiamondOrder();
    hide Next, Prior, Digraph.Nodes, Diamond, Identity;
    forall u, v | u in g.outbound.Keys && v in g.outbound[u]
      ensures v in g.inbound.Keys && u in g.inbound[v]
    {
      NextPrior(u, v);
    }
    forall u, v | v in g.inbound.Keys && u in g.inbound[v]
      ensures u in g.outbound.Keys && v in g.outbound[u]
    {
      NextPrior(u, v);
    }
  }

  lemma DiamondAdjacent(c: NodeId)
    ensures Diamond().Adjacent(c, Outbound) == Next(c)
  {
  }

  lemma DiamondMembers()
    ensures StronglyConnected.Agree(DiamondGraph().componentMembers, Identity())
  {
  }

  lemma DiamondDescending()
    ensures StronglyConnected.Descending(Diamond(), Identity())
  {
    IdentityKeys();
    hide Identity, Diamond, Next, Prior;
    forall u: NodeId, v: NodeId | v in Diamond().Adjacent(u, Outbound)
      ensures v < u < 5
    {
      DiamondAdjacent(u);
      NextPrior(u, v);
    }
  }

  lemma DiamondDecomposition()
    ensures StronglyConnected.IsDecomposition(Diamond(), DiamondGraph().componentMembers, Identity())
  {
    DiamondNodes();
    DiamondMembers();
    DiamondDescending();
    IdentityKeys();
    hide Reaches, Diamond, DiamondGraph, StronglyConnected.Agree, StronglyConnected.Descending, StronglyConnected.IsDecomposition, Identity;
    forall v: NodeId
      ensures Reaches(Diamond(), Outbound, v, v)
    {
      ReachesSelf(Diamond(), Outbound, v);
    }
    StronglyConnected.SameComponentIff(Diamond(), DiamondGraph().componentMembers, Identity());
  }

  lemma DiamondJoined(c: nat, d: nat)
    ensures d in Diamond().Adjacent(c, Outbound) <==> c != d && Joined(Diamond(), Identity(), c, d)
  {
    DiamondAdjacent(c);
    NextPrior(c, d);
    hide Diamond, Next, Prior;
    if d in Diamond().Adjacent(c, Outbound) {
      assert Identity()[c] == c && Identity()[d] == d;
    }
  }

  /** The component graph of the diamond is the diamond itself. */
  lemma DiamondCondenses()
    ensures Diamond().Valid() && Condenses(Diamond(), DiamondGraph()) && Dag(DiamondGraph()) == Diamond()
  {
    DiamondView();
    DiamondValid();
    DiamondDecomposition();
    DiamondNodes();
    hide Diamond, Dag, Digraph.Adjacent, Joined, StronglyConnected.IsDecomposition, CsrDigraph.Valid, Digraph.Valid, Identity;
    forall c, d
      ensures d in Diamond().Adjacent(c, Outbound) <==> c != d && Joined(Diamond(), Identity(), c, d)
    {
      DiamondJoined(c, d);
    }
  }

  // ----- Every component graph of the diamond is one -----

  lemma LookupTotal(cg: ComponentGraph, u: NodeId)
    requires Condenses(Diamond(), cg)
    ensures u in cg.memberComponentLookup <==> u < 5
  {
    DiamondNodes();
    IdentityKeys();
    hide Diamond, Identity, Dag, CsrDigraph.Valid, Digraph.Valid, Joined, Digraph.Adjacent;
  }

  /** Different nodes are in different components. */
  lemma LookupInjective(cg: ComponentGraph, u: NodeId, v: NodeId)
    requires Condenses(Diamond(), cg) && u < 5 && v < 5
    requires u in cg.memberComponentLookup && v in cg.memberComponentLookup && cg.memberComponentLookup[u] == cg.memberComponentLookup[v]
    ensures u == v
  {
    IdentityKeys();
    DiamondDescending();
    hide Diamond, Identity, Dag, CsrDigraph.Valid, Digraph.Valid, Joined, Digraph.Adjacent, Reaches, StronglyConnected.Agree, StronglyConnected.Descending;
    StronglyConnected.ReachesDescends(Diamond(), Identity(), u, v);
    StronglyConnected.ReachesDescends(Diamond(), Identity(), v, u);
  }

  /** The neighbours of a node's component are the components of its neighbours. */
  lemma RowOf(cg: ComponentGraph, u: NodeId, c: nat)
    requires Condenses(Diamond(), cg) && u < 5 && u in cg.memberComponentLookup
    ensures c in Dag(cg).Adjacent(cg.memberComponentLookup[u], Outbound)
            <==> exists v :: v in Next(u) && v in cg.memberComponentLookup && cg.memberComponentLookup[v] == c
  {
    var lookup := cg.memberComponentLookup;
    var h := Dag(cg);
    assert c in h.Adjacent(lookup[u], Outbound) <==> lookup[u] != c && Joined(Diamond(), lookup, lookup[u], c);
    hide Condenses, Dag, Diamond, Next, Prior;
    if c in h.Adjacent(lookup[u], Outbound) {
      var x, v :| x in lookup && v in lookup && v in Diamond().Adjacent(x, Outbound) && lookup[x] == lookup[u] && lookup[v] == c;
      LookupTotal(cg, x);
      LookupInjective(cg, x, u);
      DiamondAdjacent(u);
    }
    if v :| v in Next(u) && v in lookup && lookup[v] == c {
      DiamondAdjacent(u);
      NextPrior(u, v);
      if lookup[u] == c {
        LookupInjective(cg, u, v);
      }
    }
  }

  lemma OneListed(s: seq<NodeId>, x: NodeId)
    requires Distinct(s) && forall y :: y in s <==> y == x
    ensures s == [x]
  {
    DistinctSize(s);
    assert Elements(s) == {x};
    assert s[0] in s && s == [s[0]];
  }

  lemma TwoListed(s: seq<NodeId>, x: NodeId, y: NodeId)
    requires Distinct(s) && x != y && forall z :: z in s <==> z == x || z == y
    ensures s == [x, y] || s == [y, x]
  {
    DistinctSize(s);
    assert Elements(s) == {x, y};
    assert s[0] in s && s[1] in s && s[0] != s[1];
    assert s == [s[0], s[1]];
  }

  ghost predicate Total(cg: ComponentGraph) {
    forall u: NodeId :: u in cg.memberComponentLookup <==> u < 5
  }

  lemma LowestRow(cg: ComponentGraph)
    requires Condenses(Diamond(), cg) && SingleEdges(cg) && Total(cg)
    ensures Dag(cg).Adjacent(cg.memberComponentLookup[0], Outbound) == []
  {
    var s := Dag(cg).Adjacent(cg.memberComponentLookup[0], Outbound);
    forall c
      ensures c !in s
    {
      RowOf(cg, 0, c);
    }
    hide Condenses, Dag, Diamond;
    DistinctSize(s);
    assert Elements(s) == {};
  }

  lemma SingleRow(cg: ComponentGraph, u: NodeId, v: NodeId)
    requires Condenses(Diamond(), cg) && SingleEdges(cg) && Total(cg) && u < 5 && v < 5 && Next(u) == [v]
    ensures Dag(cg).Adjacent(cg.memberComponentLookup[u], Outbound) == [cg.memberComponentLookup[v]]
  {
    hide Condenses, Dag, Diamond, Next, Distinct, Digraph.Adjacent;
    var s := Dag(cg).Adjacent(cg.memberComponentLookup[u], Outbound);
    forall c
      ensures c in s <==> c == cg.memberComponentLookup[v]
    {
      RowOf(cg, u, c);
      assert v in Next(u);
    }
    OneListed(s, cg.memberComponentLookup[v]);
  }

  lemma TopNeighbours(cg: ComponentGraph, c: nat)
    requires Condenses(Diamond(), cg) && Total(cg)
    ensures c in Dag(cg).Adjacent(cg.memberComponentLookup[4], Outbound) <==> c == cg.memberComponentLookup[2] || c == cg.memberComponentLookup[3]
  {
    hide Condenses, Dag, Diamond, Digraph.Adjacent;
    RowOf(cg, 4, c);
    assert 2 in Next(4) && 3 in Next(4);
  }

  lemma TopRow(cg: ComponentGraph)
    requires Condenses(Diamond(), cg) && SingleEdges(cg) && Total(cg)
    ensures var lookup, s := cg.memberComponentLookup, Dag(cg).Adjacent(cg.memberComponentLookup[4], Outbound);
            s == [lookup[2], lookup[3]] || s == [lookup[3], lookup[2]]
  {
    hide Condenses, Dag, Diamond, Distinct, Digraph.Adjacent;
    var lookup, s := cg.memberComponentLookup, Dag(cg).Adjacent(cg.memberComponentLookup[4], Outbound);
    forall c
      ensures c in s <==> c == lookup[2] || c == lookup[3]
    {
      TopNeighbours(cg, c);
    }
    if lookup[2] == lookup[3] {
      LookupInjective(cg, 2, 3);
    }
    TwoListed(s, lookup[2], lookup[3]);
  }

  lemma CornersApart(cg: ComponentGraph)
    requires Condenses(Diamond(), cg) && Total(cg)
    ensures var lookup := cg.memberComponentLookup; Apart(Corners(lookup[4], lookup[2], lookup[3], lookup[1], lookup[0]))
  {
    hide Condenses, Dag, Diamond;
    var lookup := cg.memberComponentLookup;
    forall u: NodeId, v: NodeId | u < 5 && v < 5 && lookup[u] == lookup[v]
      ensures u == v
    {
      LookupInjective(cg, u, v);
    }
  }

  /** Whatever the numbering, the component graph of the diamond is a diamond; only its sides may be exchanged. */
  lemma ShapeOf(cg: ComponentGraph) returns (d: Corners)
    requires Condenses(Diamond(), cg) && SingleEdges(cg)
    ensures Total(cg)
    ensures var lookup := cg.memberComponentLookup;
            d == Corners(lookup[4], lookup[2], lookup[3], lookup[1], lookup[0]) || d == Corners(lookup[4], lookup[3], lookup[2], lookup[1], lookup[0])
    ensures Shaped(Dag(cg), d)
  {
    hide Condenses, Dag, Diamond, SingleEdges, Digraph.Adjacent;
    forall u: NodeId
      ensures u in cg.memberComponentLookup <==> u < 5
    {
      LookupTotal(cg, u);
    }
    var lookup := cg.memberComponentLookup;
    CornersApart(cg);
    LowestRow(cg);
    SingleRow(cg, 1, 0);
    SingleRow(cg, 2, 1);
    SingleRow(cg, 3, 1);
    TopRow(cg);
    d := if Dag(cg).Adjacent(lookup[4], Outbound) == [lookup[2], lookup[3]] then Corners(lookup[4], lookup[2], lookup[3], lookup[1], lookup[0])
         else Corners(lookup[4], lookup[3], lookup[2], lookup[1], lookup[0]);
  }

  // ----- A wrong answer -----

  /** With room for two, asking a new cache about 4 leaves it answering that 3 does not reach 0. */
  lemma DiamondSecondAnswerWrong(capacity: int) returns (after: ReachCache, last: ReachCache)
    requires capacity > 1
    ensures Call(Diamond(), Outbound, NewCache(capacity), 4, after, {0, 1, 2, 3, 4}) && Valid(after)
    ensures Call(Diamond(), Outbound, after, 3, last, {3, 1})
    ensures Reaches(Diamond(), Outbound, 3, 0) && !ExactEntry(Diamond(), Outbound, 3, {3, 1})
  {
    var d := Corners(4, 2, 3, 1, 0);
    assert Shaped(Diamond(), d);
    hide Diamond, Call, Reaches, ExactEntry, Valid, Shaped;
    after, last := SecondAnswerWrong(Diamond(), d, capacity);
    assert {d.z, d.m, d.l, d.r, d.t} == {0, 1, 2, 3, 4};
  }

  // ----- The bound on the capacity -----

  /** Every run on the component graph of every graph is exact. */
  ghost predicate AlwaysExact(capacity: int) {
    forall g: Digraph, cg, direction, caches ::
      g.Valid() && Condenses(g, cg) && CallRun(Dag(cg), direction, capacity, caches) ==> RunExact(Dag(cg), direction, caches)
  }

  lemma SmallCacheAlwaysExact(capacity: int)
    requires capacity <= 1
    ensures AlwaysExact(capacity)
  {
    hide Condenses, Dag, CallRun, RunExact, Digraph.Valid;
    forall g: Digraph, cg, direction, caches | g.Valid() && Condenses(g, cg) && CallRun(Dag(cg), direction, capacity, caches)
      ensures RunExact(Dag(cg), direction, caches)
    {
      forall i | 0 <= i < |caches|
        ensures ExactCache(Dag(cg), direction, caches[i])
      {
        SmallCacheExact(Dag(cg), direction, capacity, caches, i);
      }
      ExactRuns(Dag(cg), direction, capacity, caches);
    }
  }

  lemma DiamondRun(capacity: int) returns (caches: seq<ReachCache>)
    requires capacity > 1
    ensures CallRun(Diamond(), Outbound, capacity, caches) && !RunExact(Diamond(), Outbound, caches)
  {
    var after, last := DiamondSecondAnswerWrong(capacity);
    NewCacheSound(Diamond(), Outbound, capacity);
    caches := [NewCache(capacity), after];
    hide Diamond, Valid, Call, ExactCache, ExactEntry, Reaches;
    assert CallNext(Diamond(), Outbound, NewCache(capacity), after);
    assert !AnswersExact(Diamond(), Outbound, caches[1]);
  }

  /** Every run is exact on every graph exactly when the cache has room for one entry at most. */
  lemma AlwaysExactIff(capacity: int)
    ensures AlwaysExact(capacity) <==> capacity <= 1
  {
    hide AlwaysExact;
    if capacity <= 1 {
      SmallCacheAlwaysExact(capacity);
    } else {
      DiamondSpoils(capacity);
    }
  }

  lemma DiamondSpoils(capacity: int)
    requires capacity > 1
    ensures !AlwaysExact(capacity)
  {
    DiamondCondenses();
    var caches := DiamondRun(capacity);
    hide Condenses, CallRun, RunExact, Digraph.Valid;
    assert CallRun(Dag(DiamondGraph()), Outbound, capacity, caches);
  }
}
