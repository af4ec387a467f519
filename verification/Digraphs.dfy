/** Directed graphs as the `DirectedGraph` interface presents them, walks and reachability. */
module Digraphs {
  import opened Sequences

  type NodeId = nat

  datatype Direction = Inbound | Outbound | Both {
    function Reverse(): Direction {
      match this
      case Inbound => Outbound
      case Outbound => Inbound
      case Both => Both
    }
  }

  /** `order` is the sequence `EachNode` walks; `outbound` and `inbound` give the sequence
      `EachAdjacentNode` walks for each node. */
  datatype Digraph = Digraph(order: seq<NodeId>, outbound: map<NodeId, seq<NodeId>>, inbound: map<NodeId, seq<NodeId>>) {

    function Nodes(): set<NodeId> {
      set n | n in order
    }

    /** A node the graph does not know has no neighbours. */
    function Adjacent(node: NodeId, direction: Direction): seq<NodeId> {
      var out := if node in outbound then outbound[node] else [];
      var inn := if node in inbound then inbound[node] else [];
      match direction
      case Outbound => out
      case Inbound => inn
      case Both => out + inn
    }

    /** Nodes are listed once, edges stay inside the graph, and `inbound` is the converse of `outbound`. */
    ghost predicate Valid() {
      && Distinct(order)
      && outbound.Keys == Nodes()
      && inbound.Keys == Nodes()
      && (forall u, v :: u in outbound && v in outbound[u] ==> v in inbound && u in inbound[v])
      && (forall u, v :: v in inbound && u in inbound[v] ==> u in outbound && v in outbound[u])
    }
  }

  /** There is a walk of exactly `n` edges from `u` to `v`. */
  ghost predicate Walk(g: Digraph, direction: Direction, u: NodeId, v: NodeId, n: nat)
    decreases n
  {
    if n == 0 then u == v else exists w :: w in g.Adjacent(u, direction) && Walk(g, direction, w, v, n - 1)
  }

  ghost predicate Reaches(g: Digraph, direction: Direction, u: NodeId, v: NodeId) {
    exists n: nat :: Walk(g, direction, u, v, n)
  }

  /** `seen` contains every neighbour of `nodes`. */
  ghost predicate Expanded(g: Digraph, direction: Direction, nodes: set<NodeId>, seen: set<NodeId>) {
    forall u, v :: u in nodes && v in g.Adjacent(u, direction) ==> v in seen
  }

  /** `s` contains every neighbour of its members. */
  ghost predicate Closed(g: Digraph, direction: Direction, s: set<NodeId>) {
    Expanded(g, direction, s, s)
  }

  lemma {:induction false} WalkJoin(g: Digraph, direction: Direction, u: NodeId, v: NodeId, w: NodeId, n: nat, m: nat)
    requires Walk(g, direction, u, v, n) && Walk(g, direction, v, w, m)
    ensures Walk(g, direction, u, w, n + m)
    decreases n
  {
    if n > 0 {
      var x :| x in g.Adjacent(u, direction) && Walk(g, direction, x, v, n - 1);
      WalkJoin(g, direction, x, v, w, n - 1, m);
    }
  }

  lemma WalkEdge(g: Digraph, direction: Direction, u: NodeId, v: NodeId)
    requires v in g.Adjacent(u, direction)
    ensures Walk(g, direction, u, v, 1)
  {
    assert Walk(g, direction, v, v, 0);
  }

  /** A walk of `n + 1` edges can be split at its last edge. */
  lemma {:induction false} WalkLast(g: Digraph, direction: Direction, u: NodeId, v: NodeId, n: nat) returns (w: NodeId)
    requires Walk(g, direction, u, v, n + 1)
    ensures Walk(g, direction, u, w, n) && v in g.Adjacent(w, direction)
    decreases n
  {
    var x :| x in g.Adjacent(u, direction) && Walk(g, direction, x, v, n);
    if n == 0 {
      w := u;
    } else {
      w := WalkLast(g, direction, x, v, n - 1);
    }
  }

  lemma ReachesSelf(g: Digraph, direction: Direction, u: NodeId)
    ensures Reaches(g, direction, u, u)
  {
    assert Walk(g, direction, u, u, 0);
  }

  lemma ReachesEdge(g: Digraph, direction: Direction, u: NodeId, v: NodeId)
    requires v in g.Adjacent(u, direction)
    ensures Reaches(g, direction, u, v)
  {
    WalkEdge(g, direction, u, v);
  }

  lemma ReachesTrans(g: Digraph, direction: Direction, u: NodeId, v: NodeId, w: NodeId)
    requires Reaches(g, direction, u, v) && Reaches(g, direction, v, w)
    ensures Reaches(g, direction, u, w)
  {
    var n :| Walk(g, direction, u, v, n);
    var m :| Walk(g, direction, v, w, m);
    WalkJoin(g, direction, u, v, w, n, m);
  }

  lemma ReachesThenEdge(g: Digraph, direction: Direction, u: NodeId, v: NodeId, w: NodeId)
    requires Reaches(g, direction, u, v) && w in g.Adjacent(v, direction)
    ensures Reaches(g, direction, u, w)
  {
    ReachesEdge(g, direction, v, w);
    ReachesTrans(g, direction, u, v, w);
  }

  lemma {:induction false} ClosedWalk(g: Digraph, direction: Direction, s: set<NodeId>, u: NodeId, v: NodeId, n: nat)
    requires Closed(g, direction, s) && u in s && Walk(g, direction, u, v, n)
    ensures v in s
    decreases n
  {
    if n > 0 {
      var x :| x in g.Adjacent(u, direction) && Walk(g, direction, x, v, n - 1);
      ClosedWalk(g, direction, s, x, v, n - 1);
    }
  }

  /** A closed set holds everything reachable from its members. */
  lemma ClosedReaches(g: Digraph, direction: Direction, s: set<NodeId>, u: NodeId, v: NodeId)
    requires Closed(g, direction, s) && u in s && Reaches(g, direction, u, v)
    ensures v in s
  {
    var n :| Walk(g, direction, u, v, n);
    ClosedWalk(g, direction, s, u, v, n);
  }

  lemma AdjacentReverse(g: Digraph, direction: Direction, u: NodeId, v: NodeId)
    requires g.Valid() && v in g.Adjacent(u, direction)
    ensures u in g.Adjacent(v, direction.Reverse())
    ensures u in g.Nodes() && v in g.Nodes()
  {
    hide Digraph.Nodes;
    assert u in g.outbound.Keys && v in g.outbound.Keys && u in g.inbound.Keys && v in g.inbound.Keys;
  }

  lemma {:induction false} WalkReverse(g: Digraph, direction: Direction, u: NodeId, v: NodeId, n: nat)
    requires g.Valid() && Walk(g, direction, u, v, n)
    ensures Walk(g, direction.Reverse(), v, u, n)
    decreases n
  {
    hide Digraph.Valid, Digraph.Adjacent;
    if n > 0 {
      var x :| x in g.Adjacent(u, direction) && Walk(g, direction, x, v, n - 1);
      WalkReverse(g, direction, x, v, n - 1);
      AdjacentReverse(g, direction, u, x);
      WalkEdge(g, direction.Reverse(), x, u);
      WalkJoin(g, direction.Reverse(), v, x, u, n - 1, 1);
    }
  }

  /** Walking a direction backwards is walking the reversed direction. */
  lemma ReachesReverse(g: Digraph, direction: Direction, u: NodeId, v: NodeId)
    requires g.Valid()
    ensures Reaches(g, direction, u, v) <==> Reaches(g, direction.Reverse(), v, u)
  {
    if Reaches(g, direction, u, v) {
      var n :| Walk(g, direction, u, v, n);
      WalkReverse(g, direction, u, v, n);
    }
    if Reaches(g, direction.Reverse(), v, u) {
      var n :| Walk(g, direction.Reverse(), v, u, n);
      WalkReverse(g, direction.Reverse(), v, u, n);
    }
  }
}
