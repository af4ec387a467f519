/** `Reach` and `BFSTree`: breadth-first search from a node. */
module BfsTrees {
  import opened Digraphs

  datatype PathTerminal = PathTerminal(node: NodeId, distance: nat)

  /** There is a walk of at least one edge. */
  ghost predicate ReachesBeyond(g: Digraph, direction: Direction, u: NodeId, v: NodeId) {
    exists n: nat :: n > 0 && Walk(g, direction, u, v, n)
  }

  /** `distance` is the length of a shortest walk of at least one edge. */
  ghost predicate ShortestBeyond(g: Digraph, direction: Direction, u: NodeId, t: PathTerminal) {
    && t.distance > 0 && Walk(g, direction, u, t.node, t.distance)
    && forall n: nat :: 0 < n < t.distance ==> !Walk(g, direction, u, t.node, n)
  }

  lemma AdjacentInside(g: Digraph, direction: Direction, u: NodeId, v: NodeId)
    requires g.Valid() && v in g.Adjacent(u, direction)
    ensures v in g.Nodes()
  {
  }

  lemma BeyondThenEdge(g: Digraph, direction: Direction, u: NodeId, v: NodeId, w: NodeId, n: nat)
    requires Walk(g, direction, u, v, n) && w in g.Adjacent(v, direction)
    ensures Walk(g, direction, u, w, n + 1)
  {
    WalkEdge(g, direction, v, w);
    WalkJoin(g, direction, u, v, w, n, 1);
  }

  // ----- Reach -----

  ghost predicate AllBeyond(g: Digraph, direction: Direction, root: NodeId, visited: set<NodeId>) {
    forall v :: v in visited ==> ReachesBeyond(g, direction, root, v)
  }

  lemma {:induction false} ExpandedIsAll(g: Digraph, direction: Direction, root: NodeId, visited: set<NodeId>, v: NodeId, n: nat)
    requires Expanded(g, direction, visited + {root}, visited) && n > 0 && Walk(g, direction, root, v, n)
    ensures v in visited
    decreases n
  {
    var w := WalkLast(g, direction, root, v, n - 1);
    if n > 1 {
      ExpandedIsAll(g, direction, root, visited, w, n - 1);
    }
  }

  lemma OneMoreBeyond(g: Digraph, direction: Direction, root: NodeId, u: NodeId, v: NodeId)
    requires (u == root || ReachesBeyond(g, direction, root, u)) && v in g.Adjacent(u, direction)
    ensures ReachesBeyond(g, direction, root, v)
  {
    if u == root {
      WalkEdge(g, direction, root, v);
    } else {
      var n: nat :| n > 0 && Walk(g, direction, root, u, n);
      BeyondThenEdge(g, direction, root, u, v, n);
    }
  }

  /** The visitor of `Reach` over the neighbours of one node. */
  method VisitNeighbours(g: Digraph, direction: Direction, root: NodeId, next: NodeId, visited: set<NodeId>, queue: seq<NodeId>)
    returns (visited': set<NodeId>, queue': seq<NodeId>)
    requires g.Valid() && visited <= g.Nodes() && AllBeyond(g, direction, root, visited) && (next == root || next in visited)
    ensures visited <= visited' <= g.Nodes() && AllBeyond(g, direction, root, visited')
    ensures forall v :: v in g.Adjacent(next, direction) ==> v in visited'
    ensures forall v :: v in queue' <==> v in queue || v in visited' - visited
    ensures visited' == visited ==> queue' == queue
  {
    hide Digraph.Valid;
    visited', queue' := visited, queue;
    var adjacent := g.Adjacent(next, direction);
    for i := 0 to |adjacent|
      invariant visited <= visited' <= g.Nodes() && AllBeyond(g, direction, root, visited')
      invariant forall k :: 0 <= k < i ==> adjacent[k] in visited'
      invariant forall v :: v in queue' <==> v in queue || v in visited' - visited
      invariant visited' == visited ==> queue' == queue
    {
      var node := adjacent[i];
      AdjacentInside(g, direction, next, node);
      OneMoreBeyond(g, direction, root, next, node);
      if node !in visited' {
        visited', queue' := visited' + {node}, queue' + [node];
      }
    }
  }

  /** `Reach`: the nodes some walk of at least one edge leads to. */
  method Reach(g: Digraph, nodeID: NodeId, direction: Direction) returns (visited: set<NodeId>)
    requires g.Valid()
    ensures forall v :: v in visited <==> ReachesBeyond(g, direction, nodeID, v)
  {
    hide Digraph.Valid, ReachesBeyond, Expanded, AllBeyond;
    visited := {};
    assert Expanded(g, direction, {}, {}) && AllBeyond(g, direction, nodeID, {}) by { NothingVisited(g, direction, nodeID); }
    var queue := [nodeID];
    assert visited + {nodeID} - (set v | v in queue) == {};
    while queue != []
      invariant visited <= g.Nodes() && AllBeyond(g, direction, nodeID, visited)
      invariant forall v :: v in queue ==> v == nodeID || v in visited
      invariant Expanded(g, direction, visited + {nodeID} - (set v | v in queue), visited)
      decreases |g.Nodes() - visited|, |queue|
    {
      var next := queue[0];
      ghost var before, pending := visited, queue;
      visited, queue := VisitNeighbours(g, direction, nodeID, next, visited, queue[1..]);
      ExpandedStep(g, direction, nodeID, before, pending, visited, queue);
      if visited != before {
        assert g.Nodes() - visited < g.Nodes() - before;
        StrictlyFewer(g.Nodes() - visited, g.Nodes() - before);
      }
    }
    assert visited + {nodeID} - (set v | v in queue) == visited + {nodeID};
    forall v
      ensures v in visited <==> ReachesBeyond(g, direction, nodeID, v)
    {
      VisitedIsBeyond(g, direction, nodeID, visited, v);
      BeyondIsVisited(g, direction, nodeID, visited, v);
    }
  }

  lemma NothingVisited(g: Digraph, direction: Direction, root: NodeId)
    ensures Expanded(g, direction, {}, {}) && AllBeyond(g, direction, root, {})
  {
  }

  lemma VisitedIsBeyond(g: Digraph, direction: Direction, root: NodeId, visited: set<NodeId>, v: NodeId)
    requires AllBeyond(g, direction, root, visited)
    ensures v in visited ==> ReachesBeyond(g, direction, root, v)
  {
  }

  lemma ExpandedStep(g: Digraph, direction: Direction, root: NodeId, visited: set<NodeId>, queue: seq<NodeId>, visited': set<NodeId>, queue': seq<NodeId>)
    requires queue != [] && Expanded(g, direction, visited + {root} - (set v | v in queue), visited)
    requires visited <= visited' && forall v :: v in g.Adjacent(queue[0], direction) ==> v in visited'
    requires forall v :: v in queue' <==> v in queue[1..] || v in visited' - visited
    ensures Expanded(g, direction, visited' + {root} - (set v | v in queue'), visited')
  {
    assert queue == [queue[0]] + queue[1..];
    forall u, v | u in visited' + {root} - (set x | x in queue') && v in g.Adjacent(u, direction)
      ensures v in visited'
    {
      if u != queue[0] {
        assert u in visited + {root} - (set x | x in queue);
      }
    }
  }

  lemma StrictlyFewer(a: set<NodeId>, b: set<NodeId>)
    requires a < b
    ensures |a| < |b|
  {
    assert b == a + (b - a);
  }

  lemma BeyondIsVisited(g: Digraph, direction: Direction, root: NodeId, visited: set<NodeId>, v: NodeId)
    requires Expanded(g, direction, visited + {root}, visited)
    ensures ReachesBeyond(g, direction, root, v) ==> v in visited
  {
    if ReachesBeyond(g, direction, root, v) {
      var n: nat :| n > 0 && Walk(g, direction, root, v, n);
      ExpandedIsAll(g, direction, root, visited, v, n);
    }
  }

  // ----- BFSTree -----

  function NodesOf(terminals: seq<PathTerminal>): set<NodeId> {
    set i | 0 <= i < |terminals| :: terminals[i].node
  }

  ghost predicate DistinctNodes(terminals: seq<PathTerminal>) {
    forall i, j :: 0 <= i < j < |terminals| ==> terminals[i].node != terminals[j].node
  }

  ghost predicate Ordered(terminals: seq<PathTerminal>) {
    forall i, j :: 0 <= i < j < |terminals| ==> terminals[i].distance <= terminals[j].distance
  }

  ghost predicate Walked(g: Digraph, direction: Direction, root: NodeId, terminals: seq<PathTerminal>) {
    forall i :: 0 <= i < |terminals| ==> terminals[i].distance > 0 && Walk(g, direction, root, terminals[i].node, terminals[i].distance)
  }

  /** `v` was found at most `distance` edges away. */
  ghost predicate FoundWithin(terminals: seq<PathTerminal>, v: NodeId, distance: nat) {
    exists i :: 0 <= i < |terminals| && terminals[i].node == v && terminals[i].distance <= distance
  }

  /** The neighbours of a cursor were all found, at most one edge further away. */
  ghost predicate Settled(g: Digraph, direction: Direction, cursor: PathTerminal, terminals: seq<PathTerminal>) {
    forall v :: v in g.Adjacent(cursor.node, direction) ==> FoundWithin(terminals, v, cursor.distance + 1)
  }

  /** The root cursor and the terminals in the order they enter the queue. */
  function Cursors(root: NodeId, terminals: seq<PathTerminal>): seq<PathTerminal> {
    [PathTerminal(root, 0)] + terminals
  }

  ghost predicate AllSettled(g: Digraph, direction: Direction, root: NodeId, terminals: seq<PathTerminal>, done: nat) {
    forall i :: 0 <= i < done && i <= |terminals| ==> Settled(g, direction, Cursors(root, terminals)[i], terminals)
  }

  /** Nothing found is more than one edge beyond the cursor at hand. */
  ghost predicate Frontier(terminals: seq<PathTerminal>, distance: nat) {
    forall i :: 0 <= i < |terminals| ==> terminals[i].distance <= distance + 1
  }

  lemma FoundMore(terminals: seq<PathTerminal>, t: PathTerminal, v: NodeId, distance: nat)
    requires FoundWithin(terminals, v, distance)
    ensures FoundWithin(terminals + [t], v, distance)
  {
    var i :| 0 <= i < |terminals| && terminals[i].node == v && terminals[i].distance <= distance;
    assert (terminals + [t])[i] == terminals[i];
  }

  lemma SettledMore(g: Digraph, direction: Direction, root: NodeId, terminals: seq<PathTerminal>, t: PathTerminal, done: nat)
    requires AllSettled(g, direction, root, terminals, done) && done <= |terminals| + 1
    ensures AllSettled(g, direction, root, terminals + [t], done)
  {
    forall i | 0 <= i < done
      ensures Settled(g, direction, Cursors(root, terminals + [t])[i], terminals + [t])
    {
      var cursor := Cursors(root, terminals)[i];
      assert Cursors(root, terminals + [t])[i] == cursor;
      assert Settled(g, direction, cursor, terminals);
      forall v | v in g.Adjacent(cursor.node, direction)
        ensures FoundWithin(terminals + [t], v, cursor.distance + 1)
      {
        FoundMore(terminals, t, v, cursor.distance + 1);
      }
    }
  }

  lemma WalkNowhere(g: Digraph, direction: Direction, u: NodeId, v: NodeId)
    requires Walk(g, direction, u, v, 0)
    ensures u == v
  {
  }

  /** A neighbour of the root, cursor 0, or of terminal `i - 1` is found one further away at most. */
  lemma SettledFinds(g: Digraph, direction: Direction, root: NodeId, terminals: seq<PathTerminal>, i: nat, v: NodeId)
    requires AllSettled(g, direction, root, terminals, |terminals| + 1) && i <= |terminals|
    requires v in g.Adjacent(if i == 0 then root else terminals[i - 1].node, direction)
    ensures FoundWithin(terminals, v, if i == 0 then 1 else terminals[i - 1].distance + 1)
  {
    assert Settled(g, direction, Cursors(root, terminals)[i], terminals);
  }

  /** With every cursor settled, every walk is matched by a terminal that is no further away. */
  lemma {:induction false} SettledIsShortest(g: Digraph, direction: Direction, root: NodeId, terminals: seq<PathTerminal>, v: NodeId, n: nat)
    requires AllSettled(g, direction, root, terminals, |terminals| + 1) && n > 0 && Walk(g, direction, root, v, n)
    ensures FoundWithin(terminals, v, n)
    decreases n
  {
    hide Walk, AllSettled, Settled, Cursors;
    var w := WalkLast(g, direction, root, v, n - 1);
    if n == 1 {
      WalkNowhere(g, direction, root, w);
      SettledFinds(g, direction, root, terminals, 0, v);
    } else {
      SettledIsShortest(g, direction, root, terminals, w, n - 1);
      var i :| 0 <= i < |terminals| && terminals[i].node == w && terminals[i].distance <= n - 1;
      SettledFinds(g, direction, root, terminals, i + 1, v);
    }
  }

  /** What `BFSTree` promises. */
  ghost predicate IsBfsTree(g: Digraph, direction: Direction, root: NodeId, terminals: seq<PathTerminal>) {
    && DistinctNodes(terminals) && Ordered(terminals)
    && (forall i :: 0 <= i < |terminals| ==> ShortestBeyond(g, direction, root, terminals[i]))
    && (forall v :: v in NodesOf(terminals) <==> ReachesBeyond(g, direction, root, v))
  }

  /** The state of the search with `done` cursors taken from the queue. */
  ghost predicate TreeInv(g: Digraph, direction: Direction, root: NodeId, terminals: seq<PathTerminal>, done: nat) {
    && done <= |terminals| + 1
    && DistinctNodes(terminals) && Ordered(terminals) && Walked(g, direction, root, terminals)
    && AllSettled(g, direction, root, terminals, done)
    && (done <= |terminals| ==> Frontier(terminals, Cursors(root, terminals)[done].distance))
  }

  lemma TreeIsDone(g: Digraph, direction: Direction, root: NodeId, terminals: seq<PathTerminal>)
    requires TreeInv(g, direction, root, terminals, |terminals| + 1)
    ensures IsBfsTree(g, direction, root, terminals)
  {
    hide AllSettled;
    forall i | 0 <= i < |terminals|
      ensures ShortestBeyond(g, direction, root, terminals[i])
    {
      var t := terminals[i];
      forall n: nat | 0 < n < t.distance
        ensures !Walk(g, direction, root, t.node, n)
      {
        if Walk(g, direction, root, t.node, n) {
          SettledIsShortest(g, direction, root, terminals, t.node, n);
        }
      }
    }
    forall v
      ensures v in NodesOf(terminals) <==> ReachesBeyond(g, direction, root, v)
    {
      if ReachesBeyond(g, direction, root, v) {
        var n: nat :| n > 0 && Walk(g, direction, root, v, n);
        SettledIsShortest(g, direction, root, terminals, v, n);
      }
    }
  }

  lemma TreeStarts(g: Digraph, direction: Direction, root: NodeId)
    ensures TreeInv(g, direction, root, [], 0)
  {
  }

  /** A neighbour that was visited before was found in time. */
  lemma AlreadyFound(terminals: seq<PathTerminal>, v: NodeId, distance: nat)
    requires Frontier(terminals, distance) && v in NodesOf(terminals)
    ensures FoundWithin(terminals, v, distance + 1)
  {
  }

  /** Adding a newly found neighbour of the cursor at hand. */
  lemma TreeGrows(g: Digraph, direction: Direction, root: NodeId, terminals: seq<PathTerminal>, done: nat, v: NodeId)
    requires TreeInv(g, direction, root, terminals, done) && done <= |terminals|
    requires v !in NodesOf(terminals) && v in g.Adjacent(Cursors(root, terminals)[done].node, direction)
    ensures TreeInv(g, direction, root, terminals + [PathTerminal(v, Cursors(root, terminals)[done].distance + 1)], done)
  {
    hide AllSettled, Walk;
    var cursor := Cursors(root, terminals)[done];
    var t := PathTerminal(v, cursor.distance + 1);
    SettledMore(g, direction, root, terminals, t, done);
    assert Walk(g, direction, root, cursor.node, cursor.distance) by { CursorWalked(g, direction, root, terminals, done); }
    BeyondThenEdge(g, direction, root, cursor.node, v, cursor.distance);
    forall i | 0 <= i < |terminals|
      ensures terminals[i].node != v
    {
      assert terminals[i].node in NodesOf(terminals);
    }
    assert Cursors(root, terminals + [t])[done] == cursor;
  }

  lemma CursorWalked(g: Digraph, direction: Direction, root: NodeId, terminals: seq<PathTerminal>, done: nat)
    requires Walked(g, direction, root, terminals) && done <= |terminals|
    ensures Walk(g, direction, root, Cursors(root, terminals)[done].node, Cursors(root, terminals)[done].distance)
  {
  }

  lemma NodesOfMore(terminals: seq<PathTerminal>, t: PathTerminal)
    ensures NodesOf(terminals + [t]) == NodesOf(terminals) + {t.node}
  {
    var more := terminals + [t];
    assert more[|terminals|] == t;
    forall v
      ensures v in NodesOf(more) <==> v in NodesOf(terminals) + {t.node}
    {
      if v in NodesOf(terminals) {
        var i :| 0 <= i < |terminals| && terminals[i].node == v;
        assert more[i].node == v;
      }
    }
  }

  /** Taking the next cursor: the one at hand is settled now. */
  lemma TreeAdvances(g: Digraph, direction: Direction, root: NodeId, terminals: seq<PathTerminal>, done: nat)
    requires TreeInv(g, direction, root, terminals, done) && done <= |terminals|
    requires Settled(g, direction, Cursors(root, terminals)[done], terminals)
    ensures TreeInv(g, direction, root, terminals, done + 1)
  {
    hide Settled, Walked;
    var cursors := Cursors(root, terminals);
    if done + 1 <= |terminals| {
      assert cursors[done + 1] == terminals[done];
      assert cursors[done].distance <= cursors[done + 1].distance by {
        if done > 0 {
          assert cursors[done] == terminals[done - 1];
        }
      }
    }
  }

  /** The visitor of `BFSTree` over the neighbours of the cursor at hand. */
  method VisitTerminals(g: Digraph, direction: Direction, root: NodeId, next: PathTerminal, visited: set<NodeId>, queue: seq<PathTerminal>,
                        terminals: seq<PathTerminal>, ghost done: nat)
    returns (visited': set<NodeId>, queue': seq<PathTerminal>, terminals': seq<PathTerminal>)
    requires g.Valid() && done <= |terminals| && Cursors(root, terminals)[done] == next && queue == Cursors(root, terminals)[done + 1..]
    requires visited == NodesOf(terminals) && visited <= g.Nodes() && TreeInv(g, direction, root, terminals, done)
    ensures done <= |terminals'| && Cursors(root, terminals')[done] == next && queue' == Cursors(root, terminals')[done + 1..]
    ensures visited' == NodesOf(terminals') && visited <= visited' <= g.Nodes() && TreeInv(g, direction, root, terminals', done)
    ensures Settled(g, direction, next, terminals')
    ensures visited' == visited ==> queue' == queue
  {
    hide Digraph.Valid, TreeInv, NodesOf, FoundWithin, Frontier;
    visited', queue', terminals' := visited, queue, terminals;
    var adjacent := g.Adjacent(next.node, direction);
    for i := 0 to |adjacent|
      invariant done <= |terminals'| && Cursors(root, terminals')[done] == next && queue' == Cursors(root, terminals')[done + 1..]
      invariant visited' == NodesOf(terminals') && visited <= visited' <= g.Nodes() && TreeInv(g, direction, root, terminals', done)
      invariant forall k :: 0 <= k < i ==> FoundWithin(terminals', adjacent[k], next.distance + 1)
      invariant visited' == visited ==> queue' == queue
    {
      var node := adjacent[i];
      AdjacentInside(g, direction, next.node, node);
      if node !in visited' {
        var cursor := PathTerminal(node, next.distance + 1);
        TreeGrows(g, direction, root, terminals', done, node);
        NodesOfMore(terminals', cursor);
        forall k | 0 <= k < i
          ensures FoundWithin(terminals' + [cursor], adjacent[k], next.distance + 1)
        {
          FoundMore(terminals', cursor, adjacent[k], next.distance + 1);
        }
        FoundLast(terminals', cursor);
        visited', queue', terminals' := visited' + {node}, queue' + [cursor], terminals' + [cursor];
      } else {
        assert Frontier(terminals', next.distance) by { FrontierOf(g, direction, root, terminals', done); }
        AlreadyFound(terminals', node, next.distance);
      }
    }
  }

  lemma FoundLast(terminals: seq<PathTerminal>, t: PathTerminal)
    ensures FoundWithin(terminals + [t], t.node, t.distance)
  {
    assert (terminals + [t])[|terminals|] == t;
  }

  lemma FrontierOf(g: Digraph, direction: Direction, root: NodeId, terminals: seq<PathTerminal>, done: nat)
    requires TreeInv(g, direction, root, terminals, done) && done <= |terminals|
    ensures Frontier(terminals, Cursors(root, terminals)[done].distance)
  {
  }

  /** `BFSTree`: the terminals of shortest paths, nearest first. */
  method BFSTree(g: Digraph, nodeID: NodeId, direction: Direction) returns (terminals: seq<PathTerminal>)
    requires g.Valid()
    ensures IsBfsTree(g, direction, nodeID, terminals)
  {
    hide Digraph.Valid, TreeInv, IsBfsTree, NodesOf;
    var visited: set<NodeId> := {};
    var queue := [PathTerminal(nodeID, 0)];
    terminals := [];
    ghost var done := 0;
    TreeStarts(g, direction, nodeID);
    assert NodesOf([]) == {} by { NoNodes(); }
    while queue != []
      invariant done <= |terminals| + 1 && queue == Cursors(nodeID, terminals)[done..]
      invariant visited == NodesOf(terminals) && visited <= g.Nodes()
      invariant TreeInv(g, direction, nodeID, terminals, done)
      decreases |g.Nodes() - visited|, |queue|
    {
      var next := queue[0];
      ghost var before := visited;
      queue := queue[1..];
      assert next == Cursors(nodeID, terminals)[done];
      visited, queue, terminals := VisitTerminals(g, direction, nodeID, next, visited, queue, terminals, done);
      TreeAdvances(g, direction, nodeID, terminals, done);
      done := done + 1;
      if visited != before {
        assert g.Nodes() - visited < g.Nodes() - before;
        StrictlyFewer(g.Nodes() - visited, g.Nodes() - before);
      }
    }
    TreeIsDone(g, direction, nodeID, terminals);
  }

  lemma NoNodes()
    ensures NodesOf([]) == {}
  {
  }

  /** The node set of the tree is what `Reach` returns. */
  lemma TreeNodesAreReach(g: Digraph, direction: Direction, root: NodeId, terminals: seq<PathTerminal>, reach: set<NodeId>)
    requires IsBfsTree(g, direction, root, terminals)
    requires forall v :: v in reach <==> ReachesBeyond(g, direction, root, v)
    ensures NodesOf(terminals) == reach && |terminals| == |reach|
  {
    hide ReachesBeyond, ShortestBeyond;
    DistinctCount(terminals);
  }

  lemma {:induction false} DistinctCount(terminals: seq<PathTerminal>)
    requires DistinctNodes(terminals)
    ensures |NodesOf(terminals)| == |terminals|
  {
    if terminals == [] {
      NoNodes();
    } else {
      var front, last := terminals[..|terminals| - 1], terminals[|terminals| - 1];
      DistinctCount(front);
      NodesOfMore(front, last);
      assert front + [last] == terminals;
      assert last.node !in NodesOf(front);
    }
  }
}
