/** The component graph: condensation, component searches, and what they say about the original graph. */
module Components {
  import opened Digraphs
  import opened StronglyConnected
  import opened Csr
  import opened Sequences

  datatype ComponentGraph = ComponentGraph(
    componentMembers: seq<set<NodeId>>,
    memberComponentLookup: map<NodeId, nat>,
    digraph: CsrDigraph)

  /** The component graph as a digraph. */
  ghost function Dag(cg: ComponentGraph): Digraph {
    if cg.digraph.Valid() then cg.digraph.View() else Digraph([], map[], map[])
  }

  /** Some edge of `g` leads from a member of component `c` to a member of component `d`. */
  ghost predicate Joined(g: Digraph, lookup: map<NodeId, nat>, c: nat, d: nat) {
    exists u, v :: u in lookup && v in lookup && v in g.Adjacent(u, Outbound) && lookup[u] == c && lookup[v] == d
  }

  /** `cg` is the condensation of `g`: its components, and one edge per joined pair of different components. */
  ghost predicate Condenses(g: Digraph, cg: ComponentGraph) {
    && IsDecomposition(g, cg.componentMembers, cg.memberComponentLookup)
    && cg.digraph.Valid() && Dag(cg).Valid()
    && (forall c: NodeId :: c in Dag(cg).order <==> c < |cg.componentMembers|)
    && (forall c, d :: d in Dag(cg).Adjacent(c, Outbound) <==> c != d && Joined(g, cg.memberComponentLookup, c, d))
  }

  /** No edge is listed twice. */
  ghost predicate SingleEdges(cg: ComponentGraph) {
    forall c :: Distinct(Dag(cg).Adjacent(c, Outbound)) && Distinct(Dag(cg).Adjacent(c, Inbound))
  }

  // ----- Building the component graph -----

  /** Every edge of the builder joins two different components, and no other node is known than the first `n`. */
  ghost predicate Partial(g: Digraph, lookup: map<NodeId, nat>, n: nat, builder: CSRDigraphBuilder)
    reads builder
  {
    && builder.Valid()
    && (forall c: NodeId :: c in builder.Nodes() <==> c < n)
    && (forall c, d :: builder.HasEdge(c, d) ==> c != d && Joined(g, lookup, c, d))
  }

  /** All outbound edges of `node` are in the builder. */
  ghost predicate Covered(g: Digraph, lookup: map<NodeId, nat>, node: NodeId, builder: CSRDigraphBuilder)
    requires builder.Valid()
    reads builder
  {
    node in lookup && forall v :: v in g.Adjacent(node, Outbound) && v in lookup && lookup[v] != lookup[node] ==> builder.HasEdge(lookup[node], lookup[v])
  }

  method ConnectNode(g: Digraph, lookup: map<NodeId, nat>, ghost n: nat, node: NodeId, builder: CSRDigraphBuilder)
    requires g.Valid() && lookup.Keys == g.Nodes() && (forall v :: v in lookup ==> lookup[v] < n) && node in g.order
    requires Partial(g, lookup, n, builder)
    modifies builder
    ensures Partial(g, lookup, n, builder) && Covered(g, lookup, node, builder)
    ensures forall c, d :: old(builder.HasEdge(c, d)) ==> builder.HasEdge(c, d)
  {
    hide Digraph.Valid, CSRDigraphBuilder.Valid, CSRDigraphBuilder.HasEdge, CSRDigraphBuilder.Nodes;
    var nodeComponent := lookup[node];
    var inbound := g.Adjacent(node, Inbound);
    for i := 0 to |inbound|
      invariant Partial(g, lookup, n, builder)
      invariant forall c, d :: old(builder.HasEdge(c, d)) ==> builder.HasEdge(c, d)
    {
      AdjacentReverse(g, Inbound, node, inbound[i]);
      var adjacentComponent := lookup[inbound[i]];
      if nodeComponent != adjacentComponent {
        assert Joined(g, lookup, adjacentComponent, nodeComponent);
        builder.AddEdge(adjacentComponent, nodeComponent);
      }
    }
    var outbound := g.Adjacent(node, Outbound);
    for i := 0 to |outbound|
      invariant Partial(g, lookup, n, builder)
      invariant forall c, d :: old(builder.HasEdge(c, d)) ==> builder.HasEdge(c, d)
      invariant forall k :: 0 <= k < i && outbound[k] in lookup && lookup[outbound[k]] != nodeComponent ==> builder.HasEdge(nodeComponent, lookup[outbound[k]])
    {
      AdjacentReverse(g, Outbound, node, outbound[i]);
      var adjacentComponent := lookup[outbound[i]];
      if nodeComponent != adjacentComponent {
        assert Joined(g, lookup, nodeComponent, adjacentComponent);
        builder.AddEdge(nodeComponent, adjacentComponent);
      }
    }
  }

  /** What the condensation loop needs from the decomposition. */
  lemma LookupFacts(g: Digraph, members: seq<set<NodeId>>, lookup: map<NodeId, nat>)
    requires IsDecomposition(g, members, lookup)
    ensures lookup.Keys == g.Nodes() && forall v :: v in lookup ==> lookup[v] < |members|
  {
  }

  /** Once every node is covered, the builder holds exactly the joined pairs. */
  lemma AllCovered(g: Digraph, lookup: map<NodeId, nat>, n: nat, builder: CSRDigraphBuilder, c: nat, d: nat)
    requires lookup.Keys == g.Nodes() && Partial(g, lookup, n, builder)
    requires forall k :: 0 <= k < |g.order| ==> Covered(g, lookup, g.order[k], builder)
    ensures builder.HasEdge(c, d) <==> c != d && Joined(g, lookup, c, d)
  {
    hide CSRDigraphBuilder.Valid, CSRDigraphBuilder.HasEdge, Digraph.Adjacent;
    if c != d && Joined(g, lookup, c, d) {
      var u, v :| u in lookup && v in lookup && v in g.Adjacent(u, Outbound) && lookup[u] == c && lookup[v] == d;
      assert u in g.Nodes();
      var k :| 0 <= k < |g.order| && g.order[k] == u;
      assert Covered(g, lookup, g.order[k], builder);
    }
  }

  method NewComponentGraph(g: Digraph) returns (cg: ComponentGraph)
    requires g.Valid()
    ensures Condenses(g, cg) && SingleEdges(cg)
  {
    hide Digraph.Valid, Digraph.Nodes, Digraph.Adjacent, IsDecomposition, Joined, CSRDigraphBuilder.Valid, CSRDigraphBuilder.HasEdge, CsrDigraph.Valid, CsrDigraph.View, Distinct;
    var members, lookup := StronglyConnectedComponents(g);
    LookupFacts(g, members, lookup);
    var n := |members|;
    var builder := new CSRDigraphBuilder();
    for id := 0 to n
      invariant fresh(builder) && builder.Valid() && (forall c: NodeId :: c in builder.Nodes() <==> c < id)
      invariant forall c, d :: !builder.HasEdge(c, d)
    {
      builder.AddNode(id);
    }
    for i := 0 to |g.order|
      invariant fresh(builder) && Partial(g, lookup, n, builder)
      invariant forall k :: 0 <= k < i ==> Covered(g, lookup, g.order[k], builder)
    {
      ConnectNode(g, lookup, n, g.order[i], builder);
    }
    var digraph := builder.Build();
    cg := ComponentGraph(members, lookup, digraph);
    forall c, d
      ensures builder.HasEdge(c, d) <==> c != d && Joined(g, lookup, c, d)
    {
      AllCovered(g, lookup, n, builder, c, d);
    }
  }

  // ----- Reachability in the condensation -----

  /** Along any direction, a step of `g` between different components is a step of the condensation. */
  lemma StepCondenses(g: Digraph, cg: ComponentGraph, direction: Direction, u: NodeId, v: NodeId)
    requires g.Valid() && Condenses(g, cg) && v in g.Adjacent(u, direction)
    ensures u in cg.memberComponentLookup && v in cg.memberComponentLookup
    ensures var c, d := cg.memberComponentLookup[u], cg.memberComponentLookup[v];
            c == d || d in Dag(cg).Adjacent(c, direction)
  {
    hide IsDecomposition, CsrDigraph.View, CsrDigraph.Valid, Dag;
    DecompositionKeys(g, cg);
    AdjacentReverse(g, direction, u, v);
    var c, d := cg.memberComponentLookup[u], cg.memberComponentLookup[v];
    if c != d {
      if v in g.Adjacent(u, Outbound) {
        assert Joined(g, cg.memberComponentLookup, c, d);
        assert d in Dag(cg).Adjacent(c, Outbound);
        AdjacentReverse(Dag(cg), Outbound, c, d);
      }
      if u in g.Adjacent(v, Outbound) {
        assert Joined(g, cg.memberComponentLookup, d, c);
        assert c in Dag(cg).Adjacent(d, Outbound);
        AdjacentReverse(Dag(cg), Outbound, d, c);
      }
    }
  }

  lemma DecompositionKeys(g: Digraph, cg: ComponentGraph)
    requires IsDecomposition(g, cg.componentMembers, cg.memberComponentLookup)
    ensures cg.memberComponentLookup.Keys == g.Nodes()
  {
  }

  /** Members of one component reach each other along every direction. */
  lemma SameComponentReaches(g: Digraph, cg: ComponentGraph, direction: Direction, u: NodeId, v: NodeId)
    requires g.Valid() && Condenses(g, cg)
    requires u in cg.memberComponentLookup && v in cg.memberComponentLookup && cg.memberComponentLookup[u] == cg.memberComponentLookup[v]
    ensures Reaches(g, direction, u, v)
  {
    assert Reaches(g, Outbound, u, v) && Reaches(g, Outbound, v, u);
    hide Condenses, Reaches, Digraph.Valid;
    match direction
    case Outbound =>
    case Inbound => ReachesReverse(g, Outbound, v, u);
    case Both => ReachesBoth(g, u, v);
  }

  lemma {:induction false} WalkBoth(g: Digraph, u: NodeId, v: NodeId, n: nat)
    requires Walk(g, Outbound, u, v, n)
    ensures Walk(g, Both, u, v, n)
    decreases n
  {
    if n > 0 {
      var x :| x in g.Adjacent(u, Outbound) && Walk(g, Outbound, x, v, n - 1);
      WalkBoth(g, x, v, n - 1);
      assert x in g.Adjacent(u, Both);
    }
  }

  lemma ReachesBoth(g: Digraph, u: NodeId, v: NodeId)
    requires Reaches(g, Outbound, u, v)
    ensures Reaches(g, Both, u, v)
  {
    var n :| Walk(g, Outbound, u, v, n);
    WalkBoth(g, u, v, n);
  }

  lemma {:induction false} WalkCondenses(g: Digraph, cg: ComponentGraph, direction: Direction, u: NodeId, v: NodeId, n: nat)
    requires g.Valid() && Condenses(g, cg) && u in cg.memberComponentLookup && Walk(g, direction, u, v, n)
    ensures v in cg.memberComponentLookup
    ensures Reaches(Dag(cg), direction, cg.memberComponentLookup[u], cg.memberComponentLookup[v])
    decreases n
  {
    hide Condenses, Reaches, Digraph.Valid, Digraph.Adjacent, CsrDigraph.View, Dag;
    if n == 0 {
      ReachesSelf(Dag(cg), direction, cg.memberComponentLookup[u]);
    } else {
      var x :| x in g.Adjacent(u, direction) && Walk(g, direction, x, v, n - 1);
      StepCondenses(g, cg, direction, u, x);
      WalkCondenses(g, cg, direction, x, v, n - 1);
      var c, d, e := cg.memberComponentLookup[u], cg.memberComponentLookup[x], cg.memberComponentLookup[v];
      if c != d {
        ReachesEdge(Dag(cg), direction, c, d);
        ReachesTrans(Dag(cg), direction, c, d, e);
      }
    }
  }

  /** A step of the condensation is witnessed by a step between members. */
  lemma StepExpands(g: Digraph, cg: ComponentGraph, direction: Direction, c: nat, d: nat) returns (u: NodeId, v: NodeId)
    requires g.Valid() && Condenses(g, cg) && d in Dag(cg).Adjacent(c, direction)
    ensures u in cg.memberComponentLookup && cg.memberComponentLookup[u] == c
    ensures v in cg.memberComponentLookup && cg.memberComponentLookup[v] == d
    ensures v in g.Adjacent(u, direction)
  {
    hide IsDecomposition, CsrDigraph.View, CsrDigraph.Valid, Dag;
    var lookup := cg.memberComponentLookup;
    AdjacentReverse(Dag(cg), direction, c, d);
    if d in Dag(cg).Adjacent(c, Outbound) && direction != Inbound {
      u, v :| u in lookup && v in lookup && v in g.Adjacent(u, Outbound) && lookup[u] == c && lookup[v] == d;
    } else {
      assert d in Dag(cg).Adjacent(c, Inbound);
      AdjacentReverse(Dag(cg), Inbound, c, d);
      assert Joined(g, lookup, d, c);
      v, u :| v in lookup && u in lookup && u in g.Adjacent(v, Outbound) && lookup[v] == d && lookup[u] == c;
      AdjacentReverse(g, Outbound, v, u);
    }
  }

  lemma {:induction false} WalkExpands(g: Digraph, cg: ComponentGraph, direction: Direction, u: NodeId, v: NodeId, n: nat)
    requires g.Valid() && Condenses(g, cg) && u in cg.memberComponentLookup && v in cg.memberComponentLookup
    requires Walk(Dag(cg), direction, cg.memberComponentLookup[u], cg.memberComponentLookup[v], n)
    ensures Reaches(g, direction, u, v)
    decreases n
  {
    hide Condenses, Reaches, Digraph.Valid, Digraph.Adjacent, CsrDigraph.View, Dag;
    var c, e := cg.memberComponentLookup[u], cg.memberComponentLookup[v];
    if n == 0 {
      SameComponentReaches(g, cg, direction, u, v);
    } else {
      var d :| d in Dag(cg).Adjacent(c, direction) && Walk(Dag(cg), direction, d, e, n - 1);
      var x, y := StepExpands(g, cg, direction, c, d);
      SameComponentReaches(g, cg, direction, u, x);
      ReachesThenEdge(g, direction, u, x, y);
      WalkExpands(g, cg, direction, y, v, n - 1);
      ReachesTrans(g, direction, u, y, v);
    }
  }

  /** Along every direction, members reach each other exactly when their components do. */
  lemma CondensationReaches(g: Digraph, cg: ComponentGraph, direction: Direction, u: NodeId, v: NodeId)
    requires g.Valid() && Condenses(g, cg) && u in cg.memberComponentLookup && v in cg.memberComponentLookup
    ensures Reaches(g, direction, u, v)
            <==> Reaches(Dag(cg), direction, cg.memberComponentLookup[u], cg.memberComponentLookup[v])
  {
    hide Condenses, Digraph.Valid, Dag, Walk;
    var c, d := cg.memberComponentLookup[u], cg.memberComponentLookup[v];
    if Reaches(g, direction, u, v) {
      var n :| Walk(g, direction, u, v, n);
      WalkCondenses(g, cg, direction, u, v, n);
    }
    if Reaches(Dag(cg), direction, c, d) {
      var n :| Walk(Dag(cg), direction, c, d, n);
      WalkExpands(g, cg, direction, u, v, n);
    }
  }

  /** Components are numbered in reverse topological order: every edge leads to a strictly lower index. */
  lemma CondensationEdge(g: Digraph, cg: ComponentGraph, c: nat, d: nat)
    requires Condenses(g, cg) && d in Dag(cg).Adjacent(c, Outbound)
    ensures d < c
  {
    assert c != d && Joined(g, cg.memberComponentLookup, c, d);
    hide CsrDigraph.View, CsrDigraph.Valid, Dag, Digraph.Valid, Digraph.Adjacent, Agree;
  }

  lemma {:induction false} CondensationDescends(g: Digraph, cg: ComponentGraph, c: nat, d: nat, n: nat)
    requires Condenses(g, cg) && Walk(Dag(cg), Outbound, c, d, n)
    ensures n > 0 ==> d < c
    decreases n
  {
    hide Condenses, CsrDigraph.View, Digraph.Adjacent;
    if n > 0 {
      var x :| x in Dag(cg).Adjacent(c, Outbound) && Walk(Dag(cg), Outbound, x, d, n - 1);
      CondensationEdge(g, cg, c, x);
      CondensationDescends(g, cg, x, d, n - 1);
    }
  }

  /** The component graph has no cycle. */
  lemma CondensationAcyclic(g: Digraph, cg: ComponentGraph, c: nat, n: nat)
    requires Condenses(g, cg) && n > 0
    ensures !Walk(Dag(cg), Outbound, c, c, n)
  {
    hide Condenses, Dag, Walk;
    if Walk(Dag(cg), Outbound, c, c, n) {
      CondensationDescends(g, cg, c, c, n);
    }
  }
}
