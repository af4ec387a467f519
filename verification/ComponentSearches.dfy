/** `ComponentSearch` and the bidirectional `ComponentReachable`. */
module ComponentSearches {
  import opened Digraphs
  import opened Csr
  import opened Components

  /** Everything in `seen` that is no longer queued has all its neighbours in `seen`. */
  ghost predicate AllExpanded(h: Digraph, direction: Direction, seen: set<NodeId>, queue: seq<NodeId>) {
    Expanded(h, direction, (set x | x in seen && x !in queue), seen)
  }

  /** `seen'` and `queue'` extend `seen` and `queue` by the same new vertices, all of them neighbours. */
  ghost predicate Extends(adjacent: seq<NodeId>, seen: set<NodeId>, queue: seq<NodeId>, seen': set<NodeId>, queue': seq<NodeId>) {
    && queue <= queue' && seen <= seen'
    && (forall x :: x in seen' ==> x in seen || (x in adjacent && x in queue'[|queue|..]))
    && (forall x :: x in queue'[|queue|..] ==> x in seen')
  }

  /** Either something new was seen, or nothing was queued. */
  ghost predicate Progress(seen: set<NodeId>, queue: seq<NodeId>, seen': set<NodeId>, queue': seq<NodeId>) {
    seen < seen' || (seen == seen' && queue == queue')
  }

  lemma ExtendsMore(adjacent: seq<NodeId>, seen: set<NodeId>, queue: seq<NodeId>, seen': set<NodeId>, queue': seq<NodeId>, next: NodeId)
    requires Extends(adjacent, seen, queue, seen', queue') && next in adjacent && next !in seen'
    ensures Extends(adjacent, seen, queue, seen' + {next}, queue' + [next])
  {
    assert (queue' + [next])[|queue|..] == queue'[|queue|..] + [next];
  }

  /** Adds the neighbours not seen yet to `seen` and to the queue, up to and including the first new one in `goal`. */
  method Expand(adjacent: seq<NodeId>, seen: set<NodeId>, queue: seq<NodeId>, goal: set<NodeId>)
    returns (seen': set<NodeId>, queue': seq<NodeId>, hit: bool)
    ensures Extends(adjacent, seen, queue, seen', queue') && Progress(seen, queue, seen', queue')
    ensures hit <==> exists k :: 0 <= k < |adjacent| && adjacent[k] !in seen && adjacent[k] in goal
    ensures hit <==> exists x :: x in seen' && x !in seen && x in goal
    ensures !hit ==> forall x :: x in adjacent ==> x in seen'
  {
    seen', queue', hit := seen, queue, false;
    var i := 0;
    while i < |adjacent| && !hit
      invariant 0 <= i <= |adjacent| && Extends(adjacent, seen, queue, seen', queue') && Progress(seen, queue, seen', queue')
      invariant hit ==> i > 0 && adjacent[i - 1] in seen' && adjacent[i - 1] !in seen && adjacent[i - 1] in goal
      invariant !hit ==> (forall k :: 0 <= k < i ==> adjacent[k] in seen') && (forall x :: x in seen' && x !in seen ==> x !in goal)
    {
      hide Extends;
      var next := adjacent[i];
      if next !in seen' {
        ExtendsMore(adjacent, seen, queue, seen', queue', next);
        seen' := seen' + {next};
        queue' := queue' + [next];
        hit := next in goal;
      }
      i := i + 1;
    }
  }

  /** The neighbours of a popped vertex keep `AllExpanded`. */
  lemma ExpandedStep(h: Digraph, direction: Direction, seen: set<NodeId>, queue: seq<NodeId>, seen': set<NodeId>, queue': seq<NodeId>)
    requires queue != [] && AllExpanded(h, direction, seen, queue)
    requires Extends(h.Adjacent(queue[0], direction), seen, queue[1..], seen', queue')
    requires forall y :: y in h.Adjacent(queue[0], direction) ==> y in seen'
    ensures AllExpanded(h, direction, seen', queue')
  {
    assert queue == [queue[0]] + queue[1..];
    assert forall x :: x in queue ==> x == queue[0] || x in queue[1..];
    assert queue' == queue[1..] + queue'[|queue| - 1..];
    assert forall x :: x in queue[1..] ==> x in queue';
  }

  /** One side of a search: everything seen is reached from `origin`, and the queue holds seen vertices. */
  ghost predicate Side(h: Digraph, direction: Direction, origin: NodeId, universe: set<NodeId>, seen: set<NodeId>, queue: seq<NodeId>) {
    && origin in seen
    && (forall x :: x in seen ==> Reaches(h, direction, origin, x))
    && seen <= universe
    && (forall x :: x in queue ==> x in seen)
  }

  lemma SideStep(h: Digraph, direction: Direction, origin: NodeId, universe: set<NodeId>,
                 seen: set<NodeId>, queue: seq<NodeId>, seen': set<NodeId>, queue': seq<NodeId>)
    requires h.Valid() && h.Nodes() <= universe && queue != [] && Side(h, direction, origin, universe, seen, queue)
    requires Extends(h.Adjacent(queue[0], direction), seen, queue[1..], seen', queue')
    ensures Side(h, direction, origin, universe, seen', queue')
  {
    hide Digraph.Valid, Digraph.Nodes, Digraph.Adjacent, Reaches;
    forall y | y in seen'
      ensures Reaches(h, direction, origin, y) && y in universe
    {
      if y !in seen {
        ReachesThenEdge(h, direction, origin, queue[0], y);
        AdjacentReverse(h, direction, queue[0], y);
      }
    }
    assert queue' == queue[1..] + queue'[|queue| - 1..];
  }

  /** Nothing inside a set that is closed backwards can be reached from outside it. */
  lemma ClosedBackwards(h: Digraph, direction: Direction, s: set<NodeId>, start: NodeId, end: NodeId)
    requires h.Valid() && AllExpanded(h, direction.Reverse(), s, []) && end in s && start !in s
    ensures !Reaches(h, direction, start, end)
  {
    if Reaches(h, direction, start, end) {
      ReachesReverse(h, direction, start, end);
      ClosedReaches(h, direction.Reverse(), s, end, start);
    }
  }

  /** Pops the front of one side's queue and expands it. */
  method Grow(s: ComponentGraph, direction: Direction, ghost origin: NodeId, ghost universe: set<NodeId>,
              seen: set<NodeId>, queue: seq<NodeId>, goal: set<NodeId>)
    returns (seen': set<NodeId>, queue': seq<NodeId>, hit: bool)
    requires s.digraph.Valid() && Dag(s).Valid() && Dag(s).Nodes() <= universe
    requires queue != [] && Side(Dag(s), direction, origin, universe, seen, queue)
    ensures Side(Dag(s), direction, origin, universe, seen', queue')
    ensures seen < seen' || (seen == seen' && |queue'| == |queue| - 1)
    ensures hit ==> exists x :: x in seen' && x in goal
    ensures !hit ==> (AllExpanded(Dag(s), direction, seen, queue) ==> AllExpanded(Dag(s), direction, seen', queue'))
    ensures !hit && seen !! goal ==> seen' !! goal
  {
    var adjacent := s.digraph.AdjacentNodes(queue[0], direction);
    assert adjacent == Dag(s).Adjacent(queue[0], direction);
    hide Dag, Digraph.Valid, Digraph.Nodes, Digraph.Adjacent, CsrDigraph.View, CsrDigraph.Valid, Side, AllExpanded;
    seen', queue', hit := Expand(adjacent, seen, queue[1..], goal);
    SideStep(Dag(s), direction, origin, universe, seen, queue, seen', queue');
    if !hit && AllExpanded(Dag(s), direction, seen, queue) {
      ExpandedStep(Dag(s), direction, seen, queue, seen', queue');
    }
  }

  method ComponentReachable(s: ComponentGraph, start: NodeId, end: NodeId, direction: Direction) returns (reachable: bool)
    requires s.digraph.Valid() && Dag(s).Valid()
    ensures reachable <==> Reaches(Dag(s), direction, start, end)
  {
    hide Dag, Digraph.Valid, CsrDigraph.Valid, Reaches, Side, AllExpanded;
    ghost var h := Dag(s);
    if start == end {
      ReachesSelf(h, direction, start);
      return true;
    }
    reachable := false;
    ghost var universe := h.Nodes() + {start, end};
    var outboundQueue, inboundQueue := [start], [end];
    var outboundComponents, inboundComponents, visitedComponents := {start}, {end}, {};
    OneSided(h, direction, start, universe);
    OneSided(h, direction.Reverse(), end, universe);
    while !reachable
      invariant start in outboundComponents && end in inboundComponents
      invariant Side(h, direction, start, universe, outboundComponents, outboundQueue)
      invariant Side(h, direction.Reverse(), end, universe, inboundComponents, inboundQueue)
      invariant !reachable ==> outboundComponents !! inboundComponents
      invariant !reachable ==> AllExpanded(h, direction.Reverse(), inboundComponents, inboundQueue)
      invariant reachable ==> exists x :: x in outboundComponents && x in inboundComponents
      decreases universe - outboundComponents, universe - inboundComponents, |outboundQueue| + |inboundQueue|
    {
      SideWithin(h, direction, start, universe, outboundComponents, outboundQueue);
      SideWithin(h, direction.Reverse(), end, universe, inboundComponents, inboundQueue);
      if |outboundQueue| > 0 && |outboundQueue| <= |inboundQueue| {
        var nextComponent := outboundQueue[0];
        if nextComponent in visitedComponents {
          outboundQueue := outboundQueue[1..];
          continue;
        }
        visitedComponents := visitedComponents + {nextComponent};
        outboundComponents, outboundQueue, reachable := Grow(s, direction, start, universe, outboundComponents, outboundQueue, inboundComponents);
        SideWithin(h, direction, start, universe, outboundComponents, outboundQueue);
      } else if |inboundQueue| > 0 {
        inboundComponents, inboundQueue, reachable := Grow(s, direction.Reverse(), end, universe, inboundComponents, inboundQueue, outboundComponents);
        SideWithin(h, direction.Reverse(), end, universe, inboundComponents, inboundQueue);
      } else {
        assert inboundQueue == [];
        ClosedBackwards(h, direction, inboundComponents, start, end);
        return false;
      }
    }
    ghost var x :| x in outboundComponents && x in inboundComponents;
    MeetInTheMiddle(h, direction, start, end, universe, outboundComponents, outboundQueue, inboundComponents, inboundQueue, x);
  }

  lemma OneSided(h: Digraph, direction: Direction, origin: NodeId, universe: set<NodeId>)
    requires origin in universe
    ensures Side(h, direction, origin, universe, {origin}, [origin]) && AllExpanded(h, direction, {origin}, [origin])
  {
    ReachesSelf(h, direction, origin);
  }

  lemma SideWithin(h: Digraph, direction: Direction, origin: NodeId, universe: set<NodeId>, seen: set<NodeId>, queue: seq<NodeId>)
    requires Side(h, direction, origin, universe, seen, queue)
    ensures seen <= universe && origin in seen
    ensures queue != [] ==> Side(h, direction, origin, universe, seen, queue[1..])
  {
  }

  lemma MeetInTheMiddle(h: Digraph, direction: Direction, start: NodeId, end: NodeId, universe: set<NodeId>,
                        out: set<NodeId>, outQueue: seq<NodeId>, inn: set<NodeId>, inQueue: seq<NodeId>, x: NodeId)
    requires h.Valid() && Side(h, direction, start, universe, out, outQueue) && Side(h, direction.Reverse(), end, universe, inn, inQueue)
    requires x in out && x in inn
    ensures Reaches(h, direction, start, end)
  {
    ReachesReverse(h, direction, x, end);
    ReachesTrans(h, direction, start, x, end);
  }

  /** Walks the neighbours until one is the target; others are marked visited and queued. */
  method Visit(adjacent: seq<NodeId>, end: NodeId, visited: set<NodeId>, traversals: seq<NodeId>)
    returns (visited': set<NodeId>, traversals': seq<NodeId>, reachable: bool)
    requires end !in visited
    ensures Extends(adjacent, visited, traversals, visited', traversals') && Progress(visited, traversals, visited', traversals') && end !in visited'
    ensures reachable <==> end in adjacent
    ensures !reachable ==> forall x :: x in adjacent ==> x in visited'
  {
    visited', traversals', reachable := visited, traversals, false;
    var i := 0;
    while i < |adjacent| && !reachable
      invariant 0 <= i <= |adjacent| && Extends(adjacent, visited, traversals, visited', traversals') && end !in visited'
      invariant Progress(visited, traversals, visited', traversals')
      invariant reachable ==> end in adjacent
      invariant !reachable ==> forall k :: 0 <= k < i ==> adjacent[k] != end && adjacent[k] in visited'
    {
      hide Extends;
      reachable := adjacent[i] == end;
      if !reachable && adjacent[i] !in visited' {
        ExtendsMore(adjacent, visited, traversals, visited', traversals', adjacent[i]);
        visited' := visited' + {adjacent[i]};
        traversals' := traversals' + [adjacent[i]];
      }
      i := i + 1;
    }
  }

  lemma ExtendsWithStart(adjacent: seq<NodeId>, seen: set<NodeId>, queue: seq<NodeId>, seen': set<NodeId>, queue': seq<NodeId>, start: NodeId)
    requires Extends(adjacent, seen, queue, seen', queue')
    ensures Extends(adjacent, seen + {start}, queue, seen' + {start}, queue')
  {
  }

  /** One iteration of `ComponentSearch`. */
  method SearchStep(s: ComponentGraph, direction: Direction, start: NodeId, end: NodeId, visited: set<NodeId>, traversals: seq<NodeId>)
    returns (visited': set<NodeId>, traversals': seq<NodeId>, reachable: bool)
    requires s.digraph.Valid() && Dag(s).Valid()
    requires traversals != [] && end !in visited && Side(Dag(s), direction, start, Dag(s).Nodes() + {start}, visited + {start}, traversals)
    requires AllExpanded(Dag(s), direction, visited + {start}, traversals)
    ensures Side(Dag(s), direction, start, Dag(s).Nodes() + {start}, visited' + {start}, traversals') && end !in visited'
    ensures visited < visited' || (visited == visited' && |traversals'| == |traversals| - 1)
    ensures reachable ==> Reaches(Dag(s), direction, start, end)
    ensures !reachable ==> AllExpanded(Dag(s), direction, visited' + {start}, traversals')
  {
    var adjacent := s.digraph.AdjacentNodes(traversals[0], direction);
    assert adjacent == Dag(s).Adjacent(traversals[0], direction);
    hide Dag, Digraph.Valid, Digraph.Nodes, Digraph.Adjacent, CsrDigraph.View, CsrDigraph.Valid, Side, AllExpanded, Extends, Reaches;
    visited', traversals', reachable := Visit(adjacent, end, visited, traversals[1..]);
    ExtendsWithStart(adjacent, visited, traversals[1..], visited', traversals', start);
    SideStep(Dag(s), direction, start, Dag(s).Nodes() + {start}, visited + {start}, traversals, visited' + {start}, traversals');
    if reachable {
      SideReaches(Dag(s), direction, start, Dag(s).Nodes() + {start}, visited + {start}, traversals);
      ReachesThenEdge(Dag(s), direction, start, traversals[0], end);
    } else {
      ExpandedStep(Dag(s), direction, visited + {start}, traversals, visited' + {start}, traversals');
    }
  }

  lemma SideReaches(h: Digraph, direction: Direction, origin: NodeId, universe: set<NodeId>, seen: set<NodeId>, queue: seq<NodeId>)
    requires queue != [] && Side(h, direction, origin, universe, seen, queue)
    ensures Reaches(h, direction, origin, queue[0])
  {
  }

  method ComponentSearch(s: ComponentGraph, start: NodeId, end: NodeId, direction: Direction) returns (reachable: bool)
    requires s.digraph.Valid() && Dag(s).Valid()
    ensures reachable <==> Reaches(Dag(s), direction, start, end)
  {
    hide Dag, Digraph.Valid, Digraph.Nodes, CsrDigraph.Valid, Reaches, Side, AllExpanded;
    ghost var h := Dag(s);
    if start == end {
      ReachesSelf(h, direction, start);
      return true;
    }
    reachable := false;
    ghost var universe := h.Nodes() + {start};
    var traversals := [start];
    var visited: set<NodeId> := {};
    OneSided(h, direction, start, universe);
    assert visited + {start} == {start};
    while !reachable && |traversals| > 0
      invariant Side(h, direction, start, universe, visited + {start}, traversals) && end !in visited
      invariant !reachable ==> AllExpanded(h, direction, visited + {start}, traversals)
      invariant reachable ==> Reaches(h, direction, start, end)
      decreases universe - visited, |traversals|
    {
      visited, traversals, reachable := SearchStep(s, direction, start, end, visited, traversals);
      SideWithin(h, direction, start, universe, visited + {start}, traversals);
    }
    if !reachable {
      assert traversals == [];
      ClosedMisses(h, direction, visited + {start}, start, end);
    }
  }

  lemma ClosedMisses(h: Digraph, direction: Direction, s: set<NodeId>, start: NodeId, end: NodeId)
    requires AllExpanded(h, direction, s, []) && start in s && end !in s
    ensures !Reaches(h, direction, start, end)
  {
    if Reaches(h, direction, start, end) {
      ClosedReaches(h, direction, s, start, end);
    }
  }
}
