/** The triplestore: an edge list with start and end indices, and the path enumerators that walk it. */
module Triplestores {
  import opened Digraphs

  datatype Edge = Edge(id: nat, start: NodeId, end: NodeId) {
    /** The endpoint a step in `direction` arrives at; only the outbound direction picks the end. */
    function Pick(direction: Direction): NodeId {
      if direction == Outbound then end else start
    }
  }

  predicate Touches(e: Edge, node: NodeId, direction: Direction) {
    match direction
    case Outbound => e.start == node
    case Inbound => e.end == node
    case Both => e.start == node || e.end == node
  }

  /** The indices of the first `n` edges that touch the node, ascending. */
  function AdjacentIndices(edges: seq<Edge>, node: NodeId, direction: Direction, n: nat): (r: seq<nat>)
    requires n <= |edges|
    ensures forall i: nat :: i in r <==> i < n && Touches(edges[i], node, direction)
    ensures forall a, b :: 0 <= a < b < |r| ==> r[a] < r[b]
  {
    if n == 0 then []
    else
      var front := AdjacentIndices(edges, node, direction, n - 1);
      assert forall a :: 0 <= a < |front| ==> front[a] in front;
      if Touches(edges[n - 1], node, direction) then front + [n - 1] else front
  }

  /** The indices of the edges that start, or end, at a node. */
  function StartsAt(edges: seq<Edge>, node: NodeId): set<nat> {
    set i | 0 <= i < |edges| && edges[i].start == node
  }

  function EndsAt(edges: seq<Edge>, node: NodeId): set<nat> {
    set i | 0 <= i < |edges| && edges[i].end == node
  }

  /** An index lists, for every node that has any, exactly the edges that start (or end) there. */
  ghost predicate StartIndexed(edges: seq<Edge>, index: map<NodeId, set<nat>>) {
    && (forall n :: n in index ==> index[n] == StartsAt(edges, n))
    && (forall i :: 0 <= i < |edges| ==> edges[i].start in index)
  }

  ghost predicate EndIndexed(edges: seq<Edge>, index: map<NodeId, set<nat>>) {
    && (forall n :: n in index ==> index[n] == EndsAt(edges, n))
    && (forall i :: 0 <= i < |edges| ==> edges[i].end in index)
  }

  ghost predicate Covered(edges: seq<Edge>, nodes: set<NodeId>) {
    forall i :: 0 <= i < |edges| ==> edges[i].start in nodes && edges[i].end in nodes
  }

  function AddTo(index: map<NodeId, set<nat>>, node: NodeId, i: nat): map<NodeId, set<nat>> {
    index[node := (if node in index then index[node] else {}) + {i}]
  }

  lemma StartIndexedMore(edges: seq<Edge>, index: map<NodeId, set<nat>>, e: Edge)
    requires StartIndexed(edges, index)
    ensures StartIndexed(edges + [e], AddTo(index, e.start, |edges|))
  {
    var index' := AddTo(index, e.start, |edges|);
    forall n | n in index'
      ensures index'[n] == StartsAt(edges + [e], n)
    {
      assert StartsAt(edges + [e], n) == StartsAt(edges, n) + if e.start == n then {|edges|} else {};
      assert n !in index ==> StartsAt(edges, n) == {};
    }
  }

  lemma EndIndexedMore(edges: seq<Edge>, index: map<NodeId, set<nat>>, e: Edge)
    requires EndIndexed(edges, index)
    ensures EndIndexed(edges + [e], AddTo(index, e.end, |edges|))
  {
    var index' := AddTo(index, e.end, |edges|);
    forall n | n in index'
      ensures index'[n] == EndsAt(edges + [e], n)
    {
      assert EndsAt(edges + [e], n) == EndsAt(edges, n) + if e.end == n then {|edges|} else {};
      assert n !in index ==> EndsAt(edges, n) == {};
    }
  }

  class Triplestore {
    var nodes: set<NodeId>
    var edges: seq<Edge>
    var startIndex: map<NodeId, set<nat>>
    var endIndex: map<NodeId, set<nat>>

    ghost predicate Valid()
      reads this
    {
      StartIndexed(edges, startIndex) && EndIndexed(edges, endIndex) && Covered(edges, nodes)
    }

    constructor ()
      ensures Valid() && edges == [] && nodes == {}
    {
      nodes, edges, startIndex, endIndex := {}, [], map[], map[];
    }

    method AddNode(node: NodeId)
      requires Valid()
      modifies this
      ensures Valid() && nodes == old(nodes) + {node} && edges == old(edges)
    {
      nodes := nodes + {node};
    }

    method AddTriple(edge: nat, start: NodeId, end: NodeId)
      requires Valid()
      modifies this
      ensures Valid() && edges == old(edges) + [Edge(edge, start, end)] && nodes == old(nodes) + {start, end}
    {
      var e := Edge(edge, start, end);
      StartIndexedMore(edges, startIndex, e);
      EndIndexedMore(edges, endIndex, e);
      hide StartIndexed, EndIndexed;
      edges := edges + [e];
      var edgeIdx := |edges| - 1;
      if start in startIndex {
        startIndex := startIndex[start := startIndex[start] + {edgeIdx}];
      } else {
        startIndex := startIndex[start := {} + {edgeIdx}];
      }
      if end in endIndex {
        endIndex := endIndex[end := endIndex[end] + {edgeIdx}];
      } else {
        endIndex := endIndex[end := {} + {edgeIdx}];
      }
      nodes := nodes + {start, end};
    }

    /** `adjacentEdgeIndices`: the union of the indices the direction asks for. */
    method AdjacentEdgeIndices(node: NodeId, direction: Direction) returns (indices: set<nat>)
      requires Valid()
      ensures indices == set i | 0 <= i < |edges| && Touches(edges[i], node, direction)
    {
      indices := {};
      if direction != Inbound && node in startIndex {
        indices := indices + startIndex[node];
      }
      if direction != Outbound && node in endIndex {
        indices := indices + endIndex[node];
      }
    }

    /** `EachAdjacentEdge`: the adjacent edges in the order they were added. */
    method EachAdjacentEdge(node: NodeId, direction: Direction) returns (visited: seq<nat>)
      requires Valid()
      ensures visited == AdjacentIndices(edges, node, direction, |edges|)
    {
      var indices := AdjacentEdgeIndices(node, direction);
      visited := [];
      for i := 0 to |edges|
        invariant visited == AdjacentIndices(edges, node, direction, i)
      {
        if i in indices {
          visited := visited + [i];
        }
      }
    }
  }

  // ----- Filtered paths -----

  /** What `TSDFS` and `TSBFS` are asked. A path is named by the indices of its edges. */
  datatype Query = Query(edges: seq<Edge>, root: NodeId, direction: Direction, maxDepth: int, filter: Edge -> bool)

  type Path = seq<nat>

  predicate InRange(q: Query, path: Path) {
    forall i :: 0 <= i < |path| ==> path[i] < |q.edges|
  }

  function EndNode(q: Query, path: Path): NodeId
    requires InRange(q, path)
  {
    if path == [] then q.root else q.edges[path[|path| - 1]].Pick(q.direction)
  }

  /** Edge `i` may be taken after the path. */
  predicate Extends(q: Query, path: Path, i: nat) {
    InRange(q, path) && i < |q.edges| && Touches(q.edges[i], EndNode(q, path), q.direction) && q.filter(q.edges[i])
  }

  predicate IsPath(q: Query, path: Path) {
    InRange(q, path) && forall i :: 0 <= i < |path| ==> Extends(q, path[..i], path[i])
  }

  predicate DepthExceeded(q: Query, path: Path) {
    q.maxDepth > 0 && q.maxDepth < |path| + 1
  }

  /** Within the depth limit. */
  predicate IsSearched(q: Query, path: Path) {
    IsPath(q, path) && (q.maxDepth > 0 ==> |path| <= q.maxDepth)
  }

  /** The path goes no further: it has as many edges as allowed, or no edge can be taken. */
  ghost predicate Ends(q: Query, path: Path) {
    DepthExceeded(q, path) || forall i :: !Extends(q, path, i)
  }

  /** The search is finite: a depth limit, or no path longer than `limit`. */
  ghost predicate Bounded(q: Query, limit: nat) {
    if q.maxDepth > 0 then limit == q.maxDepth else forall path :: IsPath(q, path) ==> |path| <= limit
  }

  /** The segments pushed for a path. */
  function Filtered(q: Query, path: Path, indices: seq<nat>): seq<Path>
    requires forall i :: 0 <= i < |indices| ==> indices[i] < |q.edges|
  {
    if indices == [] then []
    else
      var front, last := Filtered(q, path, indices[..|indices| - 1]), indices[|indices| - 1];
      if q.filter(q.edges[last]) then front + [path + [last]] else front
  }

  function Children(q: Query, path: Path): seq<Path> {
    if !InRange(q, path) || DepthExceeded(q, path) then []
    else
      var indices := AdjacentIndices(q.edges, EndNode(q, path), q.direction, |q.edges|);
      assert forall i :: 0 <= i < |indices| ==> indices[i] in indices;
      Filtered(q, path, indices)
  }

  lemma {:induction false} FilteredIs(q: Query, path: Path, indices: seq<nat>)
    requires forall i :: 0 <= i < |indices| ==> indices[i] < |q.edges|
    requires forall a, b :: 0 <= a < b < |indices| ==> indices[a] < indices[b]
    ensures forall child :: child in Filtered(q, path, indices) <==>
                            |child| == |path| + 1 && child[..|path|] == path && child[|path|] in indices && q.filter(q.edges[child[|path|]])
    ensures forall child :: multiset(Filtered(q, path, indices))[child] <= 1
  {
    if indices != [] {
      var n := |indices| - 1;
      FilteredIs(q, path, indices[..n]);
      assert indices == indices[..n] + [indices[n]];
      assert forall child: Path :: child == path + [indices[n]] <==> |child| == |path| + 1 && child[..|path|] == path && child[|path|] == indices[n];
      assert indices[n] !in indices[..n];
    }
  }

  /** The children of a path are its one-edge extensions, each once. */
  lemma ChildrenAre(q: Query, path: Path)
    requires IsSearched(q, path)
    ensures forall child :: child in Children(q, path) <==>
                            |child| == |path| + 1 && child[..|path|] == path && !DepthExceeded(q, path) && Extends(q, path, child[|path|])
    ensures forall child :: multiset(Children(q, path))[child] <= 1
    ensures Children(q, path) == [] <==> Ends(q, path)
  {
    if !DepthExceeded(q, path) {
      var indices := AdjacentIndices(q.edges, EndNode(q, path), q.direction, |q.edges|);
      assert forall i :: 0 <= i < |indices| ==> indices[i] in indices;
      FilteredIs(q, path, indices);
      if i :| Extends(q, path, i) {
        var child := path + [i];
        assert child[..|path|] == path && child[|path|] == i;
        assert child in Children(q, path);
      }
      if Children(q, path) != [] {
        var child := Children(q, path)[0];
        assert child in Children(q, path);
        assert Extends(q, path, child[|path|]);
      }
    }
  }

  lemma ChildSearched(q: Query, path: Path, child: Path)
    requires IsSearched(q, path) && child in Children(q, path)
    ensures IsSearched(q, child)
  {
    ChildrenAre(q, path);
    forall i | 0 <= i < |child|
      ensures Extends(q, child[..i], child[i])
    {
      if i < |path| {
        assert child[..i] == path[..i] && child[i] == path[i];
      }
    }
  }
}
