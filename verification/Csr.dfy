/** Compressed sparse row storage: `CSRDigraphBuilder`, `Build` and `Normalize`. */
module Csr {
  import opened Digraphs
  import opened Bitmaps
  import opened Sequences

  /** The external IDs of a sequence of dense indices. */
  ghost function Ids(dense: seq<NodeId>, indices: seq<nat>): seq<NodeId>
    requires forall i :: i in indices ==> i < |dense|
  {
    seq(|indices|, k requires 0 <= k < |indices| => assert indices[k] in indices; dense[indices[k]])
  }

  /** Row `i` of a packed adjacency array. */
  function Row(offsets: seq<nat>, adj: seq<NodeId>, i: nat): seq<NodeId>
    requires i + 1 < |offsets| && offsets[i] <= offsets[i + 1] <= |adj|
  {
    adj[offsets[i]..offsets[i + 1]]
  }

  /** `tmp` gives each of the `|dense|` vertices a bitmap of dense indices. */
  ghost predicate Bitmapped(dense: seq<NodeId>, tmp: map<nat, set<nat>>) {
    && (forall i: nat :: i in tmp <==> i < |dense|)
    && (forall i, j :: i in tmp && j in tmp[i] ==> j < |dense|)
  }

  /** The neighbours of dense vertex `i` in the order a packed row lists them. */
  ghost function Listing(dense: seq<NodeId>, tmp: map<nat, set<nat>>, i: nat): seq<NodeId>
    requires Bitmapped(dense, tmp) && i < |dense|
  {
    AscendingMembers(tmp[i]);
    Ids(dense, Ascending(tmp[i]))
  }

  lemma ListingMembers(dense: seq<NodeId>, tmp: map<nat, set<nat>>, i: nat, v: NodeId)
    requires Bitmapped(dense, tmp) && i < |dense|
    ensures v in Listing(dense, tmp, i) <==> exists j :: j in tmp[i] && dense[j] == v
    ensures |Listing(dense, tmp, i)| == |tmp[i]|
  {
    AscendingMembers(tmp[i]);
    var order := Ascending(tmp[i]);
    if j :| j in tmp[i] && dense[j] == v {
      var k :| 0 <= k < |order| && order[k] == j;
      assert Listing(dense, tmp, i)[k] == v;
    }
    if v in Listing(dense, tmp, i) {
      var k :| 0 <= k < |order| && Listing(dense, tmp, i)[k] == v;
      assert order[k] in tmp[i];
    }
  }

  ghost predicate Monotone(offsets: seq<nat>, n: nat) {
    && |offsets| == n + 1
    && offsets[0] == 0
    && (forall i, j :: 0 <= i <= j <= n ==> offsets[i] <= offsets[j])
  }

  /** Offsets start at zero, never decrease, and every row is its vertex's listing. */
  ghost predicate Packed(dense: seq<NodeId>, tmp: map<nat, set<nat>>, offsets: seq<nat>, adj: seq<NodeId>)
    requires Bitmapped(dense, tmp)
  {
    && Monotone(offsets, |dense|) && offsets[|dense|] == |adj|
    && (forall i :: 0 <= i < |dense| ==> Row(offsets, adj, i) == Listing(dense, tmp, i))
  }

  lemma ListingNext(dense: seq<NodeId>, todo: set<nat>, x: nat)
    requires IsMin(todo, x) && forall j :: j in todo ==> j < |dense|
    ensures forall j :: j in Ascending(todo) ==> j < |dense|
    ensures forall j :: j in Ascending(todo - {x}) ==> j < |dense|
    ensures Ids(dense, Ascending(todo)) == [dense[x]] + Ids(dense, Ascending(todo - {x}))
  {
    AscendingMembers(todo);
    AscendingMembers(todo - {x});
    assert Min(todo) == x;
  }

  lemma ListingLength(dense: seq<NodeId>, row: set<nat>)
    requires forall j :: j in Ascending(row) ==> j < |dense|
    ensures |Ids(dense, Ascending(row))| == |row|
  {
    AscendingMembers(row);
  }

  /** Prefix sums of the bitmap cardinalities. */
  method Offsets(n: nat, tmp: map<nat, set<nat>>) returns (offsets: seq<nat>)
    requires forall i: nat :: i in tmp <==> i < n
    ensures Monotone(offsets, n) && forall i :: 0 <= i < n ==> offsets[i + 1] == offsets[i] + |tmp[i]|
  {
    var slots := new nat[n + 1](_ => 0);
    var total := 0;
    for next := 0 to n
      invariant slots[next] == total && slots[0] == 0
      invariant forall i, j :: 0 <= i <= j <= next ==> slots[i] <= slots[j]
      invariant forall i :: 0 <= i < next ==> slots[i + 1] == slots[i] + |tmp[i]|
    {
      total := total + |tmp[next]|;
      slots[next + 1] := total;
    }
    offsets := slots[..];
  }

  /** Writes one row of the adjacency array. */
  method FillRow(dense: seq<NodeId>, row: set<nat>, adj: array<NodeId>, start: nat)
    requires (forall j :: j in row ==> j < |dense|) && start + |row| <= adj.Length
    modifies adj
    ensures forall j :: j in Ascending(row) ==> j < |dense|
    ensures adj[..start] == old(adj[..start]) && adj[start..start + |row|] == Ids(dense, Ascending(row))
  {
    AscendingMembers(row);
    hide Ascending, Ids;
    ghost var target := Ids(dense, Ascending(row));
    ghost var rest := target;
    assert |target| == |row| by { ListingLength(dense, row); }
    var todo, k := row, start;
    while todo != {}
      invariant todo <= row && k + |todo| == start + |row| && start <= k <= start + |row|
      invariant forall j :: j in Ascending(todo) ==> j < |dense|
      invariant rest == Ids(dense, Ascending(todo)) && rest == target[k - start..]
      invariant forall i :: start <= i < k ==> adj[i] == target[i - start]
      invariant forall i :: 0 <= i < start ==> adj[i] == old(adj[i])
    {
      MinExists(todo);
      var x :| x in todo && forall y :: y in todo ==> x <= y;
      ListingNext(dense, todo, x);
      rest := rest[1..];
      adj[k] := dense[x];
      k := k + 1;
      todo := todo - {x};
    }
  }

  /** A row depends only on the cells before the next one. */
  lemma RowFrame(offsets: seq<nat>, a: seq<NodeId>, b: seq<NodeId>, i: nat, k: nat)
    requires i + 1 < |offsets| && offsets[i] <= offsets[i + 1] <= k <= |a| && k <= |b| && a[..k] == b[..k]
    ensures Row(offsets, a, i) == Row(offsets, b, i)
  {
    assert Row(offsets, a, i) == a[..k][offsets[i]..offsets[i + 1]];
    assert Row(offsets, b, i) == b[..k][offsets[i]..offsets[i + 1]];
  }

  /** The prefix-sum loop and the fill loop of `Build`, for one direction. */
  method Pack(dense: seq<NodeId>, tmp: map<nat, set<nat>>) returns (offsets: seq<nat>, adj: seq<NodeId>)
    requires Bitmapped(dense, tmp)
    ensures Packed(dense, tmp, offsets, adj)
  {
    var n := |dense|;
    offsets := Offsets(n, tmp);
    var cells := new NodeId[offsets[n]](_ => 0);
    for next := 0 to n
      invariant forall i :: 0 <= i < next ==> Row(offsets, cells[..], i) == Listing(dense, tmp, i)
    {
      ghost var before := cells[..];
      assert offsets[next + 1] == offsets[next] + |tmp[next]| && offsets[next + 1] <= offsets[n];
      FillRow(dense, tmp[next], cells, offsets[next]);
      forall i | 0 <= i < next + 1
        ensures Row(offsets, cells[..], i) == Listing(dense, tmp, i)
      {
        if i < next {
          assert offsets[i + 1] <= offsets[next];
          RowFrame(offsets, before, cells[..], i, offsets[next]);
        }
      }
    }
    adj := cells[..];
  }

  datatype CsrDigraph = CsrDigraph(
    idToDenseIdx: map<NodeId, nat>,
    denseIdxToID: seq<NodeId>,
    outOffsets: seq<nat>,
    outAdj: seq<NodeId>,
    inOffsets: seq<nat>,
    inAdj: seq<NodeId>)
  {
    /** The index maps are inverse to each other and the offsets delimit rows. */
    ghost predicate Valid() {
      && Inverse(idToDenseIdx, denseIdxToID)
      && Monotone(outOffsets, |denseIdxToID|) && outOffsets[|denseIdxToID|] == |outAdj|
      && Monotone(inOffsets, |denseIdxToID|) && inOffsets[|denseIdxToID|] == |inAdj|
    }

    /** What `EachNode` and `EachAdjacentNode` walk. */
    ghost function View(): Digraph
      requires Valid()
    {
      Digraph(denseIdxToID,
              map id | id in idToDenseIdx :: Row(outOffsets, outAdj, idToDenseIdx[id]),
              map id | id in idToDenseIdx :: Row(inOffsets, inAdj, idToDenseIdx[id]))
    }

    /** `csrRange` for a known vertex, nothing for an unknown one. */
    function AdjacentNodes(node: NodeId, direction: Direction): (r: seq<NodeId>)
      requires Valid()
      ensures r == View().Adjacent(node, direction)
    {
      if node !in idToDenseIdx then []
      else
        var idx := idToDenseIdx[node];
        match direction
        case Outbound => outAdj[outOffsets[idx]..outOffsets[idx + 1]]
        case Inbound => inAdj[inOffsets[idx]..inOffsets[idx + 1]]
        case Both => outAdj[outOffsets[idx]..outOffsets[idx + 1]] + inAdj[inOffsets[idx]..inOffsets[idx + 1]]
    }
  }

  ghost predicate Inverse(idToDenseIdx: map<NodeId, nat>, denseIdxToID: seq<NodeId>) {
    && (forall id :: id in idToDenseIdx ==> idToDenseIdx[id] < |denseIdxToID| && denseIdxToID[idToDenseIdx[id]] == id)
    && (forall i :: 0 <= i < |denseIdxToID| ==> denseIdxToID[i] in idToDenseIdx && idToDenseIdx[denseIdxToID[i]] == i)
  }

  lemma ListingDistinct(idToDenseIdx: map<NodeId, nat>, dense: seq<NodeId>, tmp: map<nat, set<nat>>, i: nat)
    requires Inverse(idToDenseIdx, dense) && Bitmapped(dense, tmp) && i < |dense|
    ensures Distinct(Listing(dense, tmp, i))
  {
    AscendingSorted(tmp[i]);
    AscendingMembers(tmp[i]);
    assert forall k :: 0 <= k < |Ascending(tmp[i])| ==> Ascending(tmp[i])[k] in tmp[i];
  }

  /** Bitmap `tmp` holds the edge from `u` to `v`. */
  ghost predicate Marked(idToDenseIdx: map<NodeId, nat>, tmp: map<nat, set<nat>>, u: NodeId, v: NodeId) {
    u in idToDenseIdx && v in idToDenseIdx && idToDenseIdx[u] in tmp && idToDenseIdx[v] in tmp[idToDenseIdx[u]]
  }

  lemma ListingMarked(idToDenseIdx: map<NodeId, nat>, dense: seq<NodeId>, tmp: map<nat, set<nat>>, u: NodeId, v: NodeId)
    requires Inverse(idToDenseIdx, dense) && Bitmapped(dense, tmp) && u in idToDenseIdx
    ensures v in Listing(dense, tmp, idToDenseIdx[u]) <==> Marked(idToDenseIdx, tmp, u, v)
  {
    ListingMembers(dense, tmp, idToDenseIdx[u], v);
  }

  /** Everything `Build` packs, before it is read through the graph interface. */
  ghost predicate Built(g: CsrDigraph, outTmp: map<nat, set<nat>>, inTmp: map<nat, set<nat>>) {
    && Inverse(g.idToDenseIdx, g.denseIdxToID)
    && Bitmapped(g.denseIdxToID, outTmp) && Bitmapped(g.denseIdxToID, inTmp)
    && (forall i, j :: i in outTmp && j in inTmp ==> (j in outTmp[i] <==> i in inTmp[j]))
    && Packed(g.denseIdxToID, outTmp, g.outOffsets, g.outAdj) && Packed(g.denseIdxToID, inTmp, g.inOffsets, g.inAdj)
  }

  lemma BuiltOutbound(g: CsrDigraph, outTmp: map<nat, set<nat>>, inTmp: map<nat, set<nat>>, u: NodeId, v: NodeId)
    requires Built(g, outTmp, inTmp)
    ensures g.Valid()
    ensures v in g.View().Adjacent(u, Outbound) <==> Marked(g.idToDenseIdx, outTmp, u, v)
    ensures Distinct(g.View().Adjacent(u, Outbound))
  {
    if u in g.idToDenseIdx {
      ListingMarked(g.idToDenseIdx, g.denseIdxToID, outTmp, u, v);
      ListingDistinct(g.idToDenseIdx, g.denseIdxToID, outTmp, g.idToDenseIdx[u]);
    }
  }

  lemma BuiltInbound(g: CsrDigraph, outTmp: map<nat, set<nat>>, inTmp: map<nat, set<nat>>, u: NodeId, v: NodeId)
    requires Built(g, outTmp, inTmp)
    ensures g.Valid()
    ensures u in g.View().Adjacent(v, Inbound) <==> Marked(g.idToDenseIdx, inTmp, v, u)
    ensures Distinct(g.View().Adjacent(v, Inbound))
  {
    if v in g.idToDenseIdx {
      ListingMarked(g.idToDenseIdx, g.denseIdxToID, inTmp, v, u);
      ListingDistinct(g.idToDenseIdx, g.denseIdxToID, inTmp, g.idToDenseIdx[v]);
    }
  }

  lemma MarkedConverse(g: CsrDigraph, outTmp: map<nat, set<nat>>, inTmp: map<nat, set<nat>>, u: NodeId, v: NodeId)
    requires Built(g, outTmp, inTmp)
    ensures Marked(g.idToDenseIdx, outTmp, u, v) <==> Marked(g.idToDenseIdx, inTmp, v, u)
  {
  }

  /** The packed graph is a valid digraph with exactly the marked edges, inbound the converse of outbound. */
  lemma BuiltView(g: CsrDigraph, outTmp: map<nat, set<nat>>, inTmp: map<nat, set<nat>>)
    requires Built(g, outTmp, inTmp)
    ensures g.Valid() && g.View().Valid() && g.View().order == g.denseIdxToID
    ensures forall u, v :: v in g.View().Adjacent(u, Outbound) <==> Marked(g.idToDenseIdx, outTmp, u, v)
    ensures forall u :: Distinct(g.View().Adjacent(u, Outbound)) && Distinct(g.View().Adjacent(u, Inbound))
  {
    hide Inverse, Bitmapped, Packed, Monotone, Built, Marked, Distinct, CsrDigraph.Valid, CsrDigraph.View, Digraph.Valid, Digraph.Adjacent;
    BuiltOutbound(g, outTmp, inTmp, 0, 0);
    ViewShape(g);
    forall u, v
      ensures v in g.View().Adjacent(u, Outbound) <==> Marked(g.idToDenseIdx, outTmp, u, v)
      ensures v in g.View().Adjacent(u, Outbound) <==> u in g.View().Adjacent(v, Inbound)
      ensures Distinct(g.View().Adjacent(u, Outbound)) && Distinct(g.View().Adjacent(v, Inbound))
    {
      BuiltOutbound(g, outTmp, inTmp, u, v);
      BuiltInbound(g, outTmp, inTmp, u, v);
      MarkedConverse(g, outTmp, inTmp, u, v);
    }
    ConverseIsValid(g.View());
  }

  lemma ViewShape(g: CsrDigraph)
    requires g.Valid()
    ensures g.View().order == g.denseIdxToID && Distinct(g.View().order)
    ensures g.View().outbound.Keys == g.View().Nodes() && g.View().inbound.Keys == g.View().Nodes()
  {
  }

  lemma ConverseIsValid(d: Digraph)
    requires Distinct(d.order) && d.outbound.Keys == d.Nodes() && d.inbound.Keys == d.Nodes()
    requires forall u, v :: v in d.Adjacent(u, Outbound) <==> u in d.Adjacent(v, Inbound)
    ensures d.Valid()
  {
    forall u, v | u in d.outbound && v in d.outbound[u]
      ensures v in d.inbound && u in d.inbound[v]
    {
      assert v in d.Adjacent(u, Outbound);
      assert u in d.Adjacent(v, Inbound);
    }
    forall u, v | v in d.inbound && u in d.inbound[v]
      ensures u in d.outbound && v in d.outbound[u]
    {
      assert u in d.Adjacent(v, Inbound);
      assert v in d.Adjacent(u, Outbound);
    }
  }

  class CSRDigraphBuilder {
    var idToDenseIdx: map<NodeId, nat>
    var denseIdxToID: seq<NodeId>
    var outTmp: map<nat, set<nat>>
    var inTmp: map<nat, set<nat>>

    ghost predicate Valid()
      reads this
    {
      && Inverse(idToDenseIdx, denseIdxToID)
      && Bitmapped(denseIdxToID, outTmp) && Bitmapped(denseIdxToID, inTmp)
      && (forall i, j :: i in outTmp && j in inTmp ==> (j in outTmp[i] <==> i in inTmp[j]))
    }

    /** The nodes added so far, in the order they were first named. */
    ghost function Nodes(): seq<NodeId>
      reads this
    {
      denseIdxToID
    }

    ghost predicate HasEdge(start: NodeId, end: NodeId)
      reads this
      requires Valid()
    {
      Marked(idToDenseIdx, outTmp, start, end)
    }

    constructor ()
      ensures Valid() && Nodes() == [] && forall u, v :: !HasEdge(u, v)
    {
      idToDenseIdx, denseIdxToID, outTmp, inTmp := map[], [], map[], map[];
    }

    method EnsureNode(id: NodeId) returns (idx: nat)
      requires Valid()
      modifies this
      ensures Valid()
      ensures Nodes() == if id in old(Nodes()) then old(Nodes()) else old(Nodes()) + [id]
      ensures id in idToDenseIdx && idx == idToDenseIdx[id]
      ensures forall u, v :: HasEdge(u, v) <==> old(HasEdge(u, v))
      ensures forall u :: u in old(idToDenseIdx) ==> u in idToDenseIdx && idToDenseIdx[u] == old(idToDenseIdx)[u]
    {
      if id in idToDenseIdx {
        assert denseIdxToID[idToDenseIdx[id]] == id;
        return idToDenseIdx[id];
      }
      idx := |denseIdxToID|;
      idToDenseIdx := idToDenseIdx[id := idx];
      denseIdxToID := denseIdxToID + [id];
      outTmp := outTmp[idx := {}];
      inTmp := inTmp[idx := {}];
    }

    method AddNode(node: NodeId)
      requires Valid()
      modifies this
      ensures Valid()
      ensures Nodes() == if node in old(Nodes()) then old(Nodes()) else old(Nodes()) + [node]
      ensures forall u, v :: HasEdge(u, v) <==> old(HasEdge(u, v))
    {
      var _ := EnsureNode(node);
    }

    method AddEdge(start: NodeId, end: NodeId)
      requires Valid()
      modifies this
      ensures Valid()
      ensures Nodes() == WithNode(WithNode(old(Nodes()), start), end)
      ensures forall u, v :: HasEdge(u, v) <==> old(HasEdge(u, v)) || (u == start && v == end)
    {
      var startIdx := EnsureNode(start);
      var endIdx := EnsureNode(end);
      outTmp := outTmp[startIdx := outTmp[startIdx] + {endIdx}];
      inTmp := inTmp[endIdx := inTmp[endIdx] + {startIdx}];
    }

    method Build() returns (g: CsrDigraph)
      requires Valid()
      ensures g.Valid() && g.View().Valid() && g.View().order == Nodes()
      ensures forall u, v :: v in g.View().Adjacent(u, Outbound) <==> HasEdge(u, v)
      ensures forall u :: Distinct(g.View().Adjacent(u, Outbound)) && Distinct(g.View().Adjacent(u, Inbound))
    {
      var outOffsets, outAdj := Pack(denseIdxToID, outTmp);
      var inOffsets, inAdj := Pack(denseIdxToID, inTmp);
      g := CsrDigraph(idToDenseIdx, denseIdxToID, outOffsets, outAdj, inOffsets, inAdj);
      assert Built(g, outTmp, inTmp);
      hide Inverse, Bitmapped, Packed, CsrDigraph.Valid, CsrDigraph.View, Digraph.Valid, Digraph.Adjacent;
      BuiltView(g, outTmp, inTmp);
    }
  }

  ghost function WithNode(nodes: seq<NodeId>, node: NodeId): seq<NodeId> {
    if node in nodes then nodes else nodes + [node]
  }

  /** Neighbour IDs translated to dense indices. */
  method Translate(idToDenseIdx: map<NodeId, nat>, adj: seq<NodeId>) returns (dense: seq<NodeId>)
    requires forall k :: 0 <= k < |adj| ==> adj[k] in idToDenseIdx
    ensures Translated(idToDenseIdx, adj, dense)
  {
    var cells := new NodeId[|adj|];
    for k := 0 to |adj|
      invariant forall i :: 0 <= i < k ==> cells[i] == idToDenseIdx[adj[i]]
    {
      cells[k] := idToDenseIdx[adj[k]];
    }
    dense := cells[..];
  }

  /** `row` is `original` with every ID replaced by its position in `reverse`. */
  ghost predicate SameRow(reverse: seq<NodeId>, row: seq<NodeId>, original: seq<NodeId>) {
    |row| == |original| && forall k :: 0 <= k < |row| ==> row[k] < |reverse| && reverse[row[k]] == original[k]
  }

  lemma SameRowMember(reverse: seq<NodeId>, row: seq<NodeId>, original: seq<NodeId>, j: nat)
    requires Distinct(reverse) && SameRow(reverse, row, original) && j < |reverse|
    ensures j in row <==> reverse[j] in original
  {
    if j in row {
      var k :| 0 <= k < |row| && row[k] == j;
      assert original[k] == reverse[j];
    }
    if reverse[j] in original {
      var k :| 0 <= k < |original| && original[k] == reverse[j];
      assert reverse[row[k]] == reverse[j];
    }
  }

  /** Every cell of a packed array lies in some row. */
  lemma {:induction false} RowOf(offsets: seq<nat>, n: nat, k: nat) returns (i: nat)
    requires n < |offsets| && offsets[0] == 0 && k < offsets[n]
    ensures i < n && offsets[i] <= k < offsets[i + 1]
  {
    if offsets[n - 1] <= k {
      i := n - 1;
    } else {
      i := RowOf(offsets, n - 1, k);
    }
  }

  lemma NeighbourInNodes(d: Digraph, u: NodeId, v: NodeId, direction: Direction)
    requires d.Valid() && v in d.Adjacent(u, direction)
    ensures v in d.order
  {
    AdjacentReverse(d, direction, u, v);
    hide Digraph.Valid, Digraph.Adjacent;
  }

  lemma ViewRow(g: CsrDigraph, i: nat)
    requires g.Valid() && i < |g.denseIdxToID|
    ensures g.View().Adjacent(g.denseIdxToID[i], Outbound) == Row(g.outOffsets, g.outAdj, i)
    ensures g.View().Adjacent(g.denseIdxToID[i], Inbound) == Row(g.inOffsets, g.inAdj, i)
    ensures g.View().Adjacent(g.denseIdxToID[i], Both) == Row(g.outOffsets, g.outAdj, i) + Row(g.inOffsets, g.inAdj, i)
    ensures g.View().order == g.denseIdxToID
  {
  }

  lemma OrderKnown(g: CsrDigraph, v: NodeId)
    requires g.Valid() && v in g.denseIdxToID
    ensures v in g.idToDenseIdx
  {
  }

  lemma OutNeighbourKnown(g: CsrDigraph, k: nat)
    requires g.Valid() && g.View().Valid() && k < |g.outAdj|
    ensures g.outAdj[k] in g.idToDenseIdx
  {
    hide CsrDigraph.View, Digraph.Valid, Digraph.Adjacent, Inverse;
    var i := RowOf(g.outOffsets, |g.denseIdxToID|, k);
    ViewRow(g, i);
    assert g.outAdj[k] == Row(g.outOffsets, g.outAdj, i)[k - g.outOffsets[i]];
    NeighbourInNodes(g.View(), g.denseIdxToID[i], g.outAdj[k], Outbound);
    OrderKnown(g, g.outAdj[k]);
  }

  lemma InNeighbourKnown(g: CsrDigraph, k: nat)
    requires g.Valid() && g.View().Valid() && k < |g.inAdj|
    ensures g.inAdj[k] in g.idToDenseIdx
  {
    hide CsrDigraph.View, Digraph.Valid, Digraph.Adjacent, Inverse;
    var i := RowOf(g.inOffsets, |g.denseIdxToID|, k);
    ViewRow(g, i);
    assert g.inAdj[k] == Row(g.inOffsets, g.inAdj, i)[k - g.inOffsets[i]];
    NeighbourInNodes(g.View(), g.denseIdxToID[i], g.inAdj[k], Inbound);
    OrderKnown(g, g.inAdj[k]);
  }

  lemma NeighboursKnown(g: CsrDigraph)
    requires g.Valid() && g.View().Valid()
    ensures forall k :: 0 <= k < |g.outAdj| ==> g.outAdj[k] in g.idToDenseIdx
    ensures forall k :: 0 <= k < |g.inAdj| ==> g.inAdj[k] in g.idToDenseIdx
  {
    hide CsrDigraph.Valid, CsrDigraph.View, Digraph.Valid;
    forall k | 0 <= k < |g.outAdj|
      ensures g.outAdj[k] in g.idToDenseIdx
    {
      OutNeighbourKnown(g, k);
    }
    forall k | 0 <= k < |g.inAdj|
      ensures g.inAdj[k] in g.idToDenseIdx
    {
      InNeighbourKnown(g, k);
    }
  }

  /** `norm` is `g` on 0..n-1, with `reverse` the isomorphism. */
  ghost predicate Normalized(g: CsrDigraph, reverse: seq<NodeId>, norm: CsrDigraph)
    requires g.Valid() && norm.Valid()
  {
    && Distinct(reverse) && g.View().order == reverse
    && norm.View().order == seq(|reverse|, i => i)
    && (forall i, direction :: 0 <= i < |reverse| ==>
                                 SameRow(reverse, norm.View().Adjacent(i, direction), g.View().Adjacent(reverse[i], direction)))
  }

  /** Edges of the normalised graph are exactly the edges between the original IDs. */
  lemma NormalizedEdge(g: CsrDigraph, reverse: seq<NodeId>, norm: CsrDigraph, i: nat, j: nat, direction: Direction)
    requires g.Valid() && norm.Valid() && Normalized(g, reverse, norm) && i < |reverse| && j < |reverse|
    ensures j in norm.View().Adjacent(i, direction) <==> reverse[j] in g.View().Adjacent(reverse[i], direction)
  {
    SameRowMember(reverse, norm.View().Adjacent(i, direction), g.View().Adjacent(reverse[i], direction), j);
  }

  lemma NormalizedConverse(g: CsrDigraph, reverse: seq<NodeId>, norm: CsrDigraph, i: nat, j: nat)
    requires g.Valid() && g.View().Valid() && norm.Valid() && Normalized(g, reverse, norm)
    ensures j in norm.View().Adjacent(i, Outbound) <==> i in norm.View().Adjacent(j, Inbound)
  {
    if i < |reverse| && j < |reverse| {
      hide CsrDigraph.View, CsrDigraph.Valid, SameRow;
      NormalizedEdge(g, reverse, norm, i, j, Outbound);
      NormalizedEdge(g, reverse, norm, j, i, Inbound);
    } else {
      assert i !in norm.idToDenseIdx || j !in norm.idToDenseIdx by {
        assert |norm.denseIdxToID| == |reverse|;
      }
      assert i < |reverse| ==> SameRow(reverse, norm.View().Adjacent(i, Outbound), g.View().Adjacent(reverse[i], Outbound));
      assert j < |reverse| ==> SameRow(reverse, norm.View().Adjacent(j, Inbound), g.View().Adjacent(reverse[j], Inbound));
    }
  }

  /** Normalising keeps the graph a valid digraph. */
  lemma NormalizedValid(g: CsrDigraph, reverse: seq<NodeId>, norm: CsrDigraph)
    requires g.Valid() && g.View().Valid() && norm.Valid() && Normalized(g, reverse, norm)
    ensures norm.View().Valid()
  {
    ViewShape(norm);
    hide CsrDigraph.View, CsrDigraph.Valid, Digraph.Valid, Digraph.Adjacent, Normalized;
    forall i, j
      ensures j in norm.View().Adjacent(i, Outbound) <==> i in norm.View().Adjacent(j, Inbound)
    {
      NormalizedConverse(g, reverse, norm, i, j);
    }
    ConverseIsValid(norm.View());
  }

  /** `dense` is `adj` with every ID replaced by its dense index. */
  ghost predicate Translated(idToDenseIdx: map<NodeId, nat>, adj: seq<NodeId>, dense: seq<NodeId>) {
    |dense| == |adj| && forall k :: 0 <= k < |adj| ==> adj[k] in idToDenseIdx && dense[k] == idToDenseIdx[adj[k]]
  }

  lemma TranslatedRow(idToDenseIdx: map<NodeId, nat>, reverse: seq<NodeId>, offsets: seq<nat>, adj: seq<NodeId>, dense: seq<NodeId>, i: nat)
    requires Inverse(idToDenseIdx, reverse) && Translated(idToDenseIdx, adj, dense)
    requires i + 1 < |offsets| && offsets[i] <= offsets[i + 1] <= |adj|
    ensures SameRow(reverse, Row(offsets, dense, i), Row(offsets, adj, i))
  {
  }

  lemma TranslatedIsNormalized(g: CsrDigraph, norm: CsrDigraph)
    requires g.Valid() && norm.Valid() && norm.denseIdxToID == seq(|g.denseIdxToID|, i => i)
    requires norm.outOffsets == g.outOffsets && Translated(g.idToDenseIdx, g.outAdj, norm.outAdj)
    requires norm.inOffsets == g.inOffsets && Translated(g.idToDenseIdx, g.inAdj, norm.inAdj)
    ensures Normalized(g, g.denseIdxToID, norm)
  {
    var reverse := g.denseIdxToID;
    ViewShape(g);
    ViewShape(norm);
    forall i, direction | 0 <= i < |reverse|
      ensures SameRow(reverse, norm.View().Adjacent(i, direction), g.View().Adjacent(reverse[i], direction))
    {
      TranslatedRows(g, norm, i, direction);
    }
    hide CsrDigraph.Valid, CsrDigraph.View, Digraph.Adjacent, Translated, SameRow;
  }

  lemma TranslatedRows(g: CsrDigraph, norm: CsrDigraph, i: nat, direction: Direction)
    requires g.Valid() && norm.Valid() && norm.denseIdxToID == seq(|g.denseIdxToID|, i => i) && i < |g.denseIdxToID|
    requires norm.outOffsets == g.outOffsets && Translated(g.idToDenseIdx, g.outAdj, norm.outAdj)
    requires norm.inOffsets == g.inOffsets && Translated(g.idToDenseIdx, g.inAdj, norm.inAdj)
    ensures SameRow(g.denseIdxToID, norm.View().Adjacent(i, direction), g.View().Adjacent(g.denseIdxToID[i], direction))
  {
    hide CsrDigraph.View, Digraph.Adjacent, Translated, SameRow, Inverse;
    assert norm.denseIdxToID[i] == i;
    ViewRow(g, i);
    ViewRow(norm, i);
    TranslatedRow(g.idToDenseIdx, g.denseIdxToID, g.outOffsets, g.outAdj, norm.outAdj, i);
    TranslatedRow(g.idToDenseIdx, g.denseIdxToID, g.inOffsets, g.inAdj, norm.inAdj, i);
    SameRowJoin(g.denseIdxToID, Row(g.outOffsets, norm.outAdj, i), Row(g.outOffsets, g.outAdj, i), Row(g.inOffsets, norm.inAdj, i), Row(g.inOffsets, g.inAdj, i));
  }

  lemma SameRowJoin(reverse: seq<NodeId>, row: seq<NodeId>, original: seq<NodeId>, row': seq<NodeId>, original': seq<NodeId>)
    requires SameRow(reverse, row, original) && SameRow(reverse, row', original')
    ensures SameRow(reverse, row + row', original + original')
  {
  }

  method Normalize(g: CsrDigraph) returns (reverse: seq<NodeId>, norm: CsrDigraph)
    requires g.Valid() && g.View().Valid()
    ensures norm.Valid() && norm.View().Valid() && Normalized(g, reverse, norm)
  {
    hide CsrDigraph.View, Digraph.Valid, Translated;
    NeighboursKnown(g);
    reverse := g.denseIdxToID;
    var n := |reverse|;
    var ids: map<NodeId, nat> := map[];
    for i := 0 to n
      invariant forall k: nat :: k in ids <==> k < i
      invariant forall k :: k in ids ==> ids[k] == k
    {
      ids := ids[i := i];
    }
    var outAdj := Translate(g.idToDenseIdx, g.outAdj);
    var inAdj := Translate(g.idToDenseIdx, g.inAdj);
    norm := CsrDigraph(ids, seq(n, i => i), g.outOffsets, outAdj, g.inOffsets, inAdj);
    TranslatedIsNormalized(g, norm);
    NormalizedValid(g, reverse, norm);
  }
}
