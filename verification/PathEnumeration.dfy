/** `TSDFS` and `TSBFS`: depth-first and breadth-first enumeration of the filtered paths from a node. */
module PathEnumeration {
  import opened Digraphs
  import opened Triplestores
  import opened Routes
  import opened PathOrders

  // ----- What the segments below a path contribute -----

  ghost predicate AllSearched(q: Query, paths: seq<Path>, d: nat) {
    forall i :: 0 <= i < |paths| ==> IsSearched(q, paths[i]) && |paths[i]| >= d
  }

  lemma SearchedWithin(q: Query, path: Path, limit: nat)
    requires IsSearched(q, path) && Bounded(q, limit)
    ensures |path| <= limit
  {
  }

  lemma ChildrenSearched(q: Query, path: Path)
    requires IsSearched(q, path)
    ensures AllSearched(q, Children(q, path), |path| + 1)
  {
    hide IsSearched, Children;
    var children := Children(q, path);
    forall i | 0 <= i < |children|
      ensures IsSearched(q, children[i]) && |children[i]| >= |path| + 1
    {
      assert children[i] in children;
      ChildSearched(q, path, children[i]);
      ChildrenAre(q, path);
    }
  }

  /** The paths handed over from a path on, with multiplicity. */
  ghost function Yield(q: Query, path: Path, limit: nat): multiset<Path>
    requires IsSearched(q, path) && Bounded(q, limit)
    decreases limit + 1 - |path|, 0
  {
    SearchedWithin(q, path, limit);
    ChildrenSearched(q, path);
    if Children(q, path) == [] then if path == [] then multiset{} else multiset{path}
    else YieldAll(q, Children(q, path), |path| + 1, limit)
  }

  ghost function YieldAll(q: Query, paths: seq<Path>, d: nat, limit: nat): multiset<Path>
    requires AllSearched(q, paths, d) && Bounded(q, limit) && d <= limit + 1
    decreases limit + 1 - d, 1 + |paths|
  {
    if paths == [] then multiset{}
    else
      SearchedWithin(q, paths[|paths| - 1], limit);
      YieldAll(q, paths[..|paths| - 1], d, limit) + Yield(q, paths[|paths| - 1], limit)
  }

  /** How many segments are taken from the deque from a path on. */
  ghost function Size(q: Query, path: Path, limit: nat): nat
    requires IsSearched(q, path) && Bounded(q, limit)
    decreases limit + 1 - |path|, 0
  {
    SearchedWithin(q, path, limit);
    ChildrenSearched(q, path);
    1 + SizeAll(q, Children(q, path), |path| + 1, limit)
  }

  ghost function SizeAll(q: Query, paths: seq<Path>, d: nat, limit: nat): nat
    requires AllSearched(q, paths, d) && Bounded(q, limit) && d <= limit + 1
    decreases limit + 1 - d, 1 + |paths|
  {
    if paths == [] then 0
    else
      SearchedWithin(q, paths[|paths| - 1], limit);
      SizeAll(q, paths[..|paths| - 1], d, limit) + Size(q, paths[|paths| - 1], limit)
  }

  // ----- The sums do not depend on order -----

  lemma {:induction false} AnyDepth(q: Query, paths: seq<Path>, d: nat, d': nat, limit: nat)
    requires AllSearched(q, paths, d) && Bounded(q, limit) && d' <= d <= limit + 1
    ensures YieldAll(q, paths, d, limit) == YieldAll(q, paths, d', limit)
    ensures SizeAll(q, paths, d, limit) == SizeAll(q, paths, d', limit)
  {
    hide IsSearched, Bounded;
    if paths != [] {
      AnyDepth(q, paths[..|paths| - 1], d, d', limit);
    }
  }

  lemma LastOwed(q: Query, paths: seq<Path>, limit: nat)
    requires AllSearched(q, paths, 0) && Bounded(q, limit) && paths != []
    ensures YieldAll(q, paths, 0, limit) == YieldAll(q, paths[..|paths| - 1], 0, limit) + Yield(q, paths[|paths| - 1], limit)
    ensures SizeAll(q, paths, 0, limit) == SizeAll(q, paths[..|paths| - 1], 0, limit) + Size(q, paths[|paths| - 1], limit)
  {
    hide IsSearched, Bounded, Yield, Size;
  }

  lemma {:induction false} Joined(q: Query, a: seq<Path>, b: seq<Path>, limit: nat)
    requires AllSearched(q, a, 0) && AllSearched(q, b, 0) && Bounded(q, limit)
    ensures YieldAll(q, a + b, 0, limit) == YieldAll(q, a, 0, limit) + YieldAll(q, b, 0, limit)
    ensures SizeAll(q, a + b, 0, limit) == SizeAll(q, a, 0, limit) + SizeAll(q, b, 0, limit)
  {
    hide IsSearched, Bounded, Yield, Size, YieldAll, SizeAll;
    if b == [] {
      assert a + b == a;
      NothingOwed(q, limit);
    } else {
      var front := b[..|b| - 1];
      Joined(q, a, front, limit);
      assert (a + b)[..|a + b| - 1] == a + front && (a + b)[|a + b| - 1] == b[|b| - 1];
      LastOwed(q, a + b, limit);
      LastOwed(q, b, limit);
    }
  }

  lemma Single(q: Query, path: Path, limit: nat)
    requires IsSearched(q, path) && Bounded(q, limit)
    ensures YieldAll(q, [path], 0, limit) == Yield(q, path, limit) && SizeAll(q, [path], 0, limit) == Size(q, path, limit)
  {
    hide IsSearched, Bounded;
    assert [path][..0] == [];
  }

  lemma Unfolded(q: Query, path: Path, limit: nat)
    requires IsSearched(q, path) && Bounded(q, limit)
    ensures AllSearched(q, Children(q, path), |path| + 1) && AllSearched(q, Children(q, path), 0) && |path| + 1 <= limit + 1
    ensures Children(q, path) == [] ==> Yield(q, path, limit) == if path == [] then multiset{} else multiset{path}
    ensures Children(q, path) != [] ==> Yield(q, path, limit) == YieldAll(q, Children(q, path), |path| + 1, limit)
    ensures Children(q, path) != [] ==> Yield(q, path, limit) == YieldAll(q, Children(q, path), 0, limit)
    ensures Size(q, path, limit) == 1 + SizeAll(q, Children(q, path), 0, limit)
  {
    hide IsSearched, Bounded, Children, YieldAll, SizeAll;
    SearchedWithin(q, path, limit);
    ChildrenSearched(q, path);
    AnyDepth(q, Children(q, path), |path| + 1, 0, limit);
  }

  lemma NothingOwed(q: Query, limit: nat)
    requires Bounded(q, limit)
    ensures AllSearched(q, [], 0) && YieldAll(q, [], 0, limit) == multiset{} && SizeAll(q, [], 0, limit) == 0
  {
  }

  /** Taking a segment from one end of the deque and pushing its children at the back. */
  lemma Taken(q: Query, rest: seq<Path>, path: Path, deque: seq<Path>, limit: nat)
    requires Bounded(q, limit) && AllSearched(q, deque, 0) && (deque == rest + [path] || deque == [path] + rest)
    ensures AllSearched(q, rest, 0) && IsSearched(q, path) && AllSearched(q, Children(q, path), 0) && AllSearched(q, rest + Children(q, path), 0)
    ensures YieldAll(q, deque, 0, limit) == YieldAll(q, rest + Children(q, path), 0, limit) + if Children(q, path) == [] && path != [] then multiset{path} else multiset{}
    ensures SizeAll(q, deque, 0, limit) == SizeAll(q, rest + Children(q, path), 0, limit) + 1
  {
    hide IsSearched, Bounded, Children, Yield, YieldAll, Size, SizeAll;
    Parts(q, rest, path, deque);
    var children := Children(q, path);
    Unfolded(q, path, limit);
    NothingOwed(q, limit);
    Single(q, path, limit);
    Joined(q, rest, [path], limit);
    Joined(q, [path], rest, limit);
    Joined(q, rest, children, limit);
  }

  lemma Parts(q: Query, rest: seq<Path>, path: Path, deque: seq<Path>)
    requires AllSearched(q, deque, 0) && (deque == rest + [path] || deque == [path] + rest)
    ensures IsSearched(q, path) && AllSearched(q, rest, 0)
  {
    hide IsSearched;
    if deque == rest + [path] {
      assert deque[|rest|] == path;
      assert forall i :: 0 <= i < |rest| ==> rest[i] == deque[i];
    } else {
      assert deque[0] == path;
      assert forall i :: 0 <= i < |rest| ==> rest[i] == deque[i + 1];
    }
  }

  // ----- What is handed over, path by path -----

  ghost predicate IsResult(q: Query, path: Path) {
    path != [] && IsSearched(q, path) && Ends(q, path)
  }

  /** Only `child` among distinct siblings can contribute `r`. */
  lemma {:induction false} OneContributes(q: Query, paths: seq<Path>, d: nat, limit: nat, child: Path, r: Path)
    requires AllSearched(q, paths, d) && Bounded(q, limit) && d <= limit + 1
    requires multiset(paths)[child] <= 1
    requires forall i :: 0 <= i < |paths| && paths[i] != child ==> r !in Yield(q, paths[i], limit)
    ensures child in paths ==> IsSearched(q, child)
    ensures YieldAll(q, paths, d, limit)[r] == if child in paths then Yield(q, child, limit)[r] else 0
  {
    hide IsSearched, Bounded, Yield;
    if paths != [] {
      var n := |paths| - 1;
      assert paths == paths[..n] + [paths[n]];
      OneContributes(q, paths[..n], d, limit, child, r);
    }
  }

  lemma PrefixIsPath(q: Query, path: Path, n: nat)
    requires IsSearched(q, path) && n < |path|
    ensures IsSearched(q, path[..n]) && Extends(q, path[..n], path[n]) && !DepthExceeded(q, path[..n])
  {
    var front := path[..n];
    forall i | 0 <= i < |front|
      ensures Extends(q, front[..i], front[i])
    {
      assert front[..i] == path[..i];
      assert Extends(q, path[..i], path[i]);
    }
  }

  /** A longer path goes through a child. */
  lemma ThroughChild(q: Query, path: Path, r: Path)
    requires IsSearched(q, path) && IsSearched(q, r) && path < r
    ensures r[..|path| + 1] in Children(q, path)
  {
    hide IsSearched, Children, Extends;
    PrefixIsPath(q, r, |path|);
    assert r[..|path|] == path;
    ChildrenAre(q, path);
    var child := r[..|path| + 1];
    assert child[..|path|] == path && child[|path|] == r[|path|];
  }

  lemma SamePrefix(path: Path, r: Path)
    requires path <= r && |path| == |r|
    ensures path == r
  {
    assert r == r[..|path|] == path;
  }

  lemma LeafYields(q: Query, path: Path, limit: nat, r: Path)
    requires IsSearched(q, path) && Bounded(q, limit) && Children(q, path) == []
    ensures Yield(q, path, limit)[r] == if path <= r && IsResult(q, r) then 1 else 0
  {
    hide IsSearched, Bounded, Children, Ends, Yield, YieldAll, Size, SizeAll;
    Unfolded(q, path, limit);
    ChildrenAre(q, path);
    if path <= r {
      if |path| == |r| {
        SamePrefix(path, r);
      } else if IsSearched(q, r) {
        ThroughChild(q, path, r);
      }
    }
  }

  /** The child of `path` on the way to `r`, if there is one. */
  function Toward(path: Path, r: Path): Path {
    if |path| < |r| then r[..|path| + 1] else r
  }

  lemma ChildToward(q: Query, path: Path, i: nat, r: Path)
    requires IsSearched(q, path) && i < |Children(q, path)|
    ensures Children(q, path)[i] <= r ==> Children(q, path)[i] == Toward(path, r)
  {
    hide IsSearched, Children;
    ChildIs(q, path, i);
  }

  /** Whether the child toward `r` exists decides whether `r` is handed over below `path`. */
  lemma TowardDecides(q: Query, path: Path, r: Path)
    requires IsSearched(q, path) && Children(q, path) != []
    ensures path <= r && IsResult(q, r) <==> Toward(path, r) in Children(q, path) && Toward(path, r) <= r && IsResult(q, r)
  {
    hide IsSearched, Children, Ends, Extends;
    ChildrenAre(q, path);
    if path <= r && IsResult(q, r) {
      if |path| == |r| {
        SamePrefix(path, r);
      } else {
        ThroughChild(q, path, r);
      }
    }
    var child := Toward(path, r);
    if child in Children(q, path) && child <= r {
      assert child[..|path|] == path && |child| == |path| + 1;
    }
  }

  /** From a path on, exactly the results that extend it are handed over, each once. */
  lemma {:induction false} YieldIs(q: Query, path: Path, limit: nat, r: Path)
    requires IsSearched(q, path) && Bounded(q, limit)
    ensures Yield(q, path, limit)[r] == if path <= r && IsResult(q, r) then 1 else 0
    decreases limit + 1 - |path|
  {
    hide IsSearched, Bounded, Children, IsResult, Yield, YieldAll, Size, SizeAll, Toward;
    Unfolded(q, path, limit);
    var children := Children(q, path);
    if children == [] {
      LeafYields(q, path, limit, r);
    } else {
      ChildrenAre(q, path);
      TowardDecides(q, path, r);
      forall i | 0 <= i < |children|
        ensures IsSearched(q, children[i])
        ensures Yield(q, children[i], limit)[r] == if children[i] <= r && IsResult(q, r) then 1 else 0
        ensures children[i] <= r ==> children[i] == Toward(path, r)
      {
        ChildIs(q, path, i);
        ChildToward(q, path, i, r);
        YieldIs(q, children[i], limit, r);
      }
      OneContributes(q, children, |path| + 1, limit, Toward(path, r), r);
    }
  }

  lemma ChildIs(q: Query, path: Path, i: nat)
    requires IsSearched(q, path) && i < |Children(q, path)|
    ensures IsSearched(q, Children(q, path)[i]) && path <= Children(q, path)[i] && |Children(q, path)[i]| == |path| + 1
  {
    hide IsSearched, Children;
    var child := Children(q, path)[i];
    assert child in Children(q, path);
    ChildrenAre(q, path);
    ChildSearched(q, path, child);
  }

  /** A complete enumeration: every route to hand over once and nothing else. */
  ghost predicate IsEnumeration(q: Query, handed: seq<Path>) {
    forall r :: multiset(handed)[r] == if IsEndOfRoute(q, r) then 1 else 0
  }

  /** What the searches hand over, in terms of the endpoints of the edges. */
  lemma ResultsAreRoutes(q: Query, path: Path)
    ensures IsResult(q, path) <==> IsEndOfRoute(q, path)
  {
    hide IsPath, IsRoute, Ends, IsStuck;
    PathsAreRoutes(q, path);
    if path != [] && IsSearched(q, path) {
      EndsAreEnds(q, path);
    }
  }

  lemma YieldIsEnumeration(q: Query, handed: seq<Path>, limit: nat)
    requires Bounded(q, limit) && IsSearched(q, []) && multiset(handed) == Yield(q, [], limit)
    ensures IsEnumeration(q, handed)
  {
    hide IsSearched, Bounded, Yield, IsResult, IsEndOfRoute;
    forall r
      ensures multiset(handed)[r] == if IsEndOfRoute(q, r) then 1 else 0
    {
      ResultsAreRoutes(q, r);
      YieldIs(q, [], limit, r);
    }
  }

  /** Two complete enumerations hand over the same paths the same number of times. */
  lemma EnumerationsAgree(q: Query, a: seq<Path>, b: seq<Path>)
    requires IsEnumeration(q, a) && IsEnumeration(q, b)
    ensures multiset(a) == multiset(b)
  {
    hide IsEndOfRoute;
    forall r
      ensures multiset(a)[r] == multiset(b)[r]
    {
    }
  }

  // ----- The two searches -----

  /** One pass through the loop of a search: a segment is taken from the back or the front of the deque and its children are pushed. */
  function DequeStep(q: Query, depthFirst: bool, deque: seq<Path>): seq<Path> {
    if deque == [] then []
    else if depthFirst then deque[..|deque| - 1] + Children(q, deque[|deque| - 1])
    else deque[1..] + Children(q, deque[0])
  }

  /** The deque after `n` passes. */
  function DequeAfter(q: Query, depthFirst: bool, deque: seq<Path>, n: nat): seq<Path>
    decreases n
  {
    if n == 0 then deque else DequeAfter(q, depthFirst, DequeStep(q, depthFirst, deque), n - 1)
  }

  lemma {:induction false} OnePassMore(q: Query, depthFirst: bool, deque: seq<Path>, n: nat)
    ensures DequeAfter(q, depthFirst, deque, n + 1) == DequeStep(q, depthFirst, DequeAfter(q, depthFirst, deque, n))
    decreases n
  {
    hide DequeStep;
    if n > 0 {
      OnePassMore(q, depthFirst, DequeStep(q, depthFirst, deque), n - 1);
    }
  }

  lemma DequeStarts(q: Query, depthFirst: bool)
    ensures DequeAfter(q, depthFirst, [[]], 0) == [[]] && Stacked([], [[]]) && Layered([], [[]])
  {
  }

  /** Taking a segment from the back keeps the depth-first order, whether it is handed over or not. */
  lemma StackKept(q: Query, handed: seq<Path>, rest: seq<Path>, next: Path)
    requires Stacked(handed, rest + [next])
    ensures Stacked(handed, rest + Children(q, next))
    ensures Children(q, next) == [] ==> Stacked(handed + [next], rest + Children(q, next))
  {
    hide Children, Stacked, GrowFrom;
    ChildrenAscend(q, next);
    StackPushed(handed, rest, next, Children(q, next));
    StackHanded(handed, rest, next);
    assert rest + [] == rest;
  }

  /** Taking a segment from the front keeps the breadth-first order, whether it is handed over or not. */
  lemma LayersKept(q: Query, handed: seq<Path>, next: Path, rest: seq<Path>)
    requires Layered(handed, [next] + rest)
    ensures Layered(handed, rest + Children(q, next))
    ensures Children(q, next) == [] ==> Layered(handed + [next], rest + Children(q, next))
  {
    hide Children, Layered, GrowFrom;
    ChildrenAscend(q, next);
    LayersPushed(handed, next, rest, Children(q, next));
    LayersHanded(handed, next, rest);
    assert rest + [] == rest;
  }

  /** The positions of the paths of exactly `maxDepth` edges, which the searches count as incomplete. */
  function Deep(q: Query, handed: seq<Path>): set<nat> {
    set i: nat | i < |handed| && |handed[i]| == q.maxDepth
  }

  lemma DeepMore(q: Query, handed: seq<Path>, path: Path)
    requires path != [] && IsSearched(q, path)
    ensures |Deep(q, handed + [path])| == |Deep(q, handed)| + if DepthExceeded(q, path) then 1 else 0
  {
    hide IsPath;
    var more := handed + [path];
    assert Deep(q, more) == Deep(q, handed) + if DepthExceeded(q, path) then {|handed|} else {};
  }

  /** Whatever was handed over is a route to hand over, and none was handed over twice. */
  ghost predicate IsPartial(q: Query, handed: seq<Path>) {
    forall r :: multiset(handed)[r] <= if IsEndOfRoute(q, r) then 1 else 0
  }

  /** Handed over so far plus still owed by the deque is the whole. */
  ghost predicate Balanced(q: Query, handed: seq<Path>, deque: seq<Path>, limit: nat)
    requires AllSearched(q, deque, 0) && Bounded(q, limit)
  {
    IsSearched(q, []) && multiset(handed) + YieldAll(q, deque, 0, limit) == Yield(q, [], limit)
  }

  ghost function Remaining(q: Query, deque: seq<Path>, limit: nat): nat {
    if AllSearched(q, deque, 0) && Bounded(q, limit) then SizeAll(q, deque, 0, limit) else 0
  }

  lemma RootOwes(q: Query, limit: nat)
    requires Bounded(q, limit)
    ensures AllSearched(q, [[]], 0) && Balanced(q, [], [[]], limit)
  {
    hide Bounded, YieldAll, Yield, SizeAll, Size;
    assert IsSearched(q, []) by { RootSearched(q); }
    Single(q, [], limit);
  }

  lemma NoneDeep(q: Query)
    ensures |Deep(q, [])| == 0
  {
  }

  lemma RootSearched(q: Query)
    ensures IsSearched(q, [])
  {
  }

  lemma StillBalanced(q: Query, handed: seq<Path>, before: seq<Path>, rest: seq<Path>, next: Path, limit: nat)
    requires Bounded(q, limit) && AllSearched(q, before, 0) && (before == rest + [next] || before == [next] + rest)
    requires Balanced(q, handed, before, limit)
    ensures AllSearched(q, rest + Children(q, next), 0)
    ensures if Children(q, next) == [] && next != [] then Balanced(q, handed + [next], rest + Children(q, next), limit)
            else Balanced(q, handed, rest + Children(q, next), limit)
    ensures Remaining(q, rest + Children(q, next), limit) < Remaining(q, before, limit)
  {
    hide Bounded, AllSearched, IsSearched, YieldAll, Yield, SizeAll, Size, Children;
    Taken(q, rest, next, before, limit);
    assert multiset(handed + [next]) == multiset(handed) + multiset{next};
  }

  lemma PartialSoFar(q: Query, handed: seq<Path>, deque: seq<Path>, limit: nat)
    requires Bounded(q, limit) && AllSearched(q, deque, 0) && Balanced(q, handed, deque, limit)
    ensures IsPartial(q, handed)
  {
    hide Bounded, AllSearched, IsSearched, YieldAll, Yield, IsResult, IsEndOfRoute;
    forall r
      ensures multiset(handed)[r] <= if IsEndOfRoute(q, r) then 1 else 0
    {
      ResultsAreRoutes(q, r);
      YieldIs(q, [], limit, r);
      assert multiset(handed)[r] <= (multiset(handed) + YieldAll(q, deque, 0, limit))[r];
    }
  }

  lemma Finished(q: Query, handed: seq<Path>, limit: nat)
    requires Bounded(q, limit) && AllSearched(q, [], 0) && Balanced(q, handed, [], limit)
    ensures IsPartial(q, handed) && IsEnumeration(q, handed)
  {
    hide Bounded, AllSearched, IsSearched, YieldAll, Yield, IsResult;
    NothingOwed(q, limit);
    YieldIsEnumeration(q, handed, limit);
    PartialSoFar(q, handed, [], limit);
  }

  lemma StackedHanded(handed: seq<Path>, deque: seq<Path>)
    requires Stacked(handed, deque)
    ensures DepthFirst(handed)
  {
  }

  lemma LayeredHanded(handed: seq<Path>, deque: seq<Path>)
    requires Layered(handed, deque)
    ensures BreadthFirst(handed)
  {
  }

  /** The visitor over the adjacent edges of a segment: the segments pushed are its children. */
  method PushChildren(ts: Triplestore, q: Query, next: Path, depthExceeded: bool) returns (pushed: seq<Path>)
    requires ts.Valid() && q.edges == ts.edges && IsSearched(q, next) && depthExceeded == DepthExceeded(q, next)
    ensures pushed == Children(q, next)
  {
    hide Triplestore.Valid;
    pushed := [];
    if !depthExceeded {
      var indices := ts.EachAdjacentEdge(EndNode(q, next), q.direction);
      assert forall i :: 0 <= i < |indices| ==> indices[i] in indices;
      for k := 0 to |indices|
        invariant pushed == Filtered(q, next, indices[..k])
      {
        var nextEdge := ts.edges[indices[k]];
        assert indices[..k + 1][..k] == indices[..k];
        if q.filter(nextEdge) {
          pushed := pushed + [next + [indices[k]]];
        }
      }
      assert indices[..|indices|] == indices;
    }
  }

  /** `TSDFS`: segments are taken from the back of the deque. */
  method TSDFS(ts: Triplestore, nodeID: NodeId, direction: Direction, maxDepth: int, descentFilter: Edge -> bool, handler: seq<Path> -> bool,
               ghost limit: nat)
    returns (incomplete: nat, handed: seq<Path>, ghost passes: nat)
    requires ts.Valid() && Bounded(Query(ts.edges, nodeID, direction, maxDepth, descentFilter), limit)
    ensures var q := Query(ts.edges, nodeID, direction, maxDepth, descentFilter);
            && IsPartial(q, handed) && incomplete == |Deep(q, handed)|
            && ((forall h :: handler(h)) ==> IsEnumeration(q, handed))
    ensures (forall h :: handler(h)) ==> DequeAfter(Query(ts.edges, nodeID, direction, maxDepth, descentFilter), true, [[]], passes) == []
    ensures DepthFirst(handed)
  {
    hide Bounded, AllSearched, IsSearched, YieldAll, Yield, SizeAll, Size, Children, IsPartial, IsEnumeration, Triplestore.Valid, Balanced, Remaining, Deep, DequeAfter, Stacked, DepthFirst;
    var q := Query(ts.edges, nodeID, direction, maxDepth, descentFilter);
    var traversals: seq<Path> := [[]];
    incomplete, handed, passes := 0, [], 0;
    RootOwes(q, limit);
    DequeStarts(q, true);
    assert |Deep(q, [])| == 0 by { NoneDeep(q); }
    while traversals != []
      invariant AllSearched(q, traversals, 0) && Balanced(q, handed, traversals, limit) && Stacked(handed, traversals)
      invariant incomplete == |Deep(q, handed)| && traversals == DequeAfter(q, true, [[]], passes)
      decreases Remaining(q, traversals, limit)
    {
      ghost var before := traversals;
      OnePassMore(q, true, [[]], passes);
      passes := passes + 1;
      var remainingTraversals := |traversals|;
      var next := traversals[|traversals| - 1];
      traversals := traversals[..|traversals| - 1];
      ghost var rest := traversals;
      Parts(q, rest, next, before);
      StillBalanced(q, handed, before, rest, next, limit);
      assert before == rest + [next];
      StackKept(q, handed, rest, next);
      var depthExceeded := maxDepth > 0 && maxDepth < |next| + 1;
      var pushed := PushChildren(ts, q, next, depthExceeded);
      traversals := traversals + pushed;
      if |next| + 1 > 1 && remainingTraversals - 1 == |traversals| {
        if depthExceeded {
          incomplete := incomplete + 1;
        }
        DeepMore(q, handed, next);
        handed := handed + [next];
        if !handler(handed) {
          PartialSoFar(q, handed, traversals, limit);
          StackedHanded(handed, traversals);
          return;
        }
      }
    }
    Finished(q, handed, limit);
    StackedHanded(handed, traversals);
  }

  /** `TSBFS`: segments are taken from the front of the deque, so shorter paths are handed over first. */
  method TSBFS(ts: Triplestore, nodeID: NodeId, direction: Direction, maxDepth: int, descentFilter: Edge -> bool, handler: seq<Path> -> bool,
               ghost limit: nat)
    returns (incomplete: nat, handed: seq<Path>, ghost passes: nat)
    requires ts.Valid() && Bounded(Query(ts.edges, nodeID, direction, maxDepth, descentFilter), limit)
    ensures var q := Query(ts.edges, nodeID, direction, maxDepth, descentFilter);
            && IsPartial(q, handed) && incomplete == |Deep(q, handed)|
            && ((forall h :: handler(h)) ==> IsEnumeration(q, handed))
    ensures (forall h :: handler(h)) ==> DequeAfter(Query(ts.edges, nodeID, direction, maxDepth, descentFilter), false, [[]], passes) == []
    ensures BreadthFirst(handed)
  {
    hide Bounded, AllSearched, IsSearched, YieldAll, Yield, SizeAll, Size, Children, IsPartial, IsEnumeration, Triplestore.Valid, Balanced, Remaining, Deep, DequeAfter, Layered, BreadthFirst;
    var q := Query(ts.edges, nodeID, direction, maxDepth, descentFilter);
    var traversals: seq<Path> := [[]];
    incomplete, handed, passes := 0, [], 0;
    RootOwes(q, limit);
    DequeStarts(q, false);
    assert |Deep(q, [])| == 0 by { NoneDeep(q); }
    while traversals != []
      invariant AllSearched(q, traversals, 0) && Balanced(q, handed, traversals, limit) && Layered(handed, traversals)
      invariant incomplete == |Deep(q, handed)| && traversals == DequeAfter(q, false, [[]], passes)
      decreases Remaining(q, traversals, limit)
    {
      ghost var before := traversals;
      OnePassMore(q, false, [[]], passes);
      passes := passes + 1;
      var remainingTraversals := |traversals|;
      var next := traversals[0];
      traversals := traversals[1..];
      ghost var rest := traversals;
      Parts(q, rest, next, before);
      StillBalanced(q, handed, before, rest, next, limit);
      assert before == [next] + rest;
      LayersKept(q, handed, next, rest);
      var depthExceeded := maxDepth > 0 && maxDepth < |next| + 1;
      var pushed := PushChildren(ts, q, next, depthExceeded);
      traversals := traversals + pushed;
      if |next| + 1 > 1 && remainingTraversals - 1 == |traversals| {
        if depthExceeded {
          incomplete := incomplete + 1;
        }
        DeepMore(q, handed, next);
        handed := handed + [next];
        if !handler(handed) {
          PartialSoFar(q, handed, traversals, limit);
          LayeredHanded(handed, traversals);
          return;
        }
      }
    }
    Finished(q, handed, limit);
    LayeredHanded(handed, traversals);
  }
}
