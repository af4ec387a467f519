/** When `TSDFS` and `TSBFS` end: the filtered paths are bounded in length, which is to say that none takes an edge twice. */
module PathTermination {
  import opened Digraphs
  import opened Triplestores
  import opened Routes
  import opened PathEnumeration

  /** A search whose handler always continues ends. */
  ghost predicate Terminates(q: Query, depthFirst: bool) {
    exists n: nat :: DequeAfter(q, depthFirst, [[]], n) == []
  }

  // ----- Bounded searches end -----

  lemma {:induction false} Empties(q: Query, depthFirst: bool, deque: seq<Path>, limit: nat) returns (n: nat)
    requires Bounded(q, limit) && AllSearched(q, deque, 0)
    ensures DequeAfter(q, depthFirst, deque, n) == []
    decreases SizeAll(q, deque, 0, limit)
  {
    hide Bounded, AllSearched, IsSearched, Children, YieldAll, SizeAll;
    if deque == [] {
      n := 0;
    } else {
      var next, rest := if depthFirst then deque[|deque| - 1] else deque[0], if depthFirst then deque[..|deque| - 1] else deque[1..];
      assert deque == if depthFirst then rest + [next] else [next] + rest;
      Taken(q, rest, next, deque, limit);
      n := Empties(q, depthFirst, DequeStep(q, depthFirst, deque), limit);
      n := n + 1;
    }
  }

  // ----- Searches that end are bounded -----

  /** While a path is in the deque, each of its extensions needs a pass of its own. */
  lemma {:induction false} PassesBound(q: Query, depthFirst: bool, deque: seq<Path>, n: nat, x: Path, r: Path)
    requires DequeAfter(q, depthFirst, deque, n) == [] && x in deque && IsSearched(q, x) && IsSearched(q, r) && x <= r
    ensures |r| - |x| + 1 <= n
    decreases n
  {
    hide IsSearched, Children;
    if n > 0 {
      var next := if depthFirst then deque[|deque| - 1] else deque[0];
      var after := DequeStep(q, depthFirst, deque);
      if next != x {
        StaysInDeque(q, depthFirst, deque, x);
        PassesBound(q, depthFirst, after, n - 1, x, r);
      } else if |x| < |r| {
        ThroughChild(q, x, r);
        var child := r[..|x| + 1];
        ChildSearched(q, x, child);
        assert child in after;
        PassesBound(q, depthFirst, after, n - 1, child, r);
      }
    }
  }

  lemma StaysInDeque(q: Query, depthFirst: bool, deque: seq<Path>, x: Path)
    requires x in deque && x != if depthFirst then deque[|deque| - 1] else deque[0]
    ensures x in DequeStep(q, depthFirst, deque)
  {
    hide Children;
    if depthFirst {
      assert deque == deque[..|deque| - 1] + [deque[|deque| - 1]];
    } else {
      assert deque == [deque[0]] + deque[1..];
    }
  }

  lemma EndedIsBounded(q: Query, depthFirst: bool, n: nat) returns (limit: nat)
    requires DequeAfter(q, depthFirst, [[]], n) == []
    ensures Bounded(q, limit)
  {
    hide DequeAfter, IsPath;
    limit := if q.maxDepth > 0 then q.maxDepth else n;
    RootSearched(q);
    forall path | IsPath(q, path) && q.maxDepth <= 0
      ensures |path| <= n
    {
      PassesBound(q, depthFirst, [[]], n, [], path);
    }
  }

  /** Both searches end exactly when a depth limit was given or the filtered paths have bounded length. */
  lemma TerminatesIffBounded(q: Query, depthFirst: bool)
    ensures Terminates(q, depthFirst) <==> exists limit :: Bounded(q, limit)
  {
    hide Bounded, DequeAfter;
    if n: nat :| DequeAfter(q, depthFirst, [[]], n) == [] {
      var limit := EndedIsBounded(q, depthFirst, n);
    }
    if limit :| Bounded(q, limit) {
      RootOwes(q, limit);
      var n := Empties(q, depthFirst, [[]], limit);
    }
  }

  // ----- Bounded means that no filtered path takes an edge twice -----

  ghost predicate Repeats(path: Path, a: int, b: int) {
    0 <= a < b < |path| && path[a] == path[b]
  }

  /** Some filtered path takes an edge twice. */
  ghost predicate HasCycle(q: Query) {
    exists path, a, b :: IsRoute(q, path) && Repeats(path, a, b)
  }

  /** A path that ends in the edge another path takes at `k - 1` can go on like it. */
  lemma Glued(q: Query, head: Path, path: Path, k: nat)
    requires IsPath(q, head) && IsPath(q, path) && head != [] && 0 < k <= |path| && head[|head| - 1] == path[k - 1]
    ensures IsPath(q, head + path[k..])
  {
    var whole := head + path[k..];
    assert InRange(q, whole);
    forall i | 0 <= i < |whole|
      ensures Extends(q, whole[..i], whole[i])
    {
      if i < |head| {
        assert whole[..i] == head[..i];
        assert Extends(q, head[..i], head[i]);
      } else {
        var m := k + (i - |head|);
        assert whole[i] == path[m] && whole[..i][i - 1] == path[..m][m - 1];
        assert Extends(q, path[..m], path[m]);
        assert EndNode(q, whole[..i]) == EndNode(q, path[..m]);
      }
    }
  }

  /** Going round a cycle often enough makes a path as long as one likes. */
  lemma {:induction false} Pumped(q: Query, path: Path, a: int, b: int, n: nat) returns (long: Path)
    requires IsPath(q, path) && Repeats(path, a, b)
    ensures IsPath(q, long) && |long| >= n && long != [] && long[|long| - 1] == path[b]
    decreases n
  {
    hide IsPath;
    var front := path[..b + 1];
    assert IsPath(q, front) by { PathPrefix(q, path, b + 1); }
    if n == 0 {
      long := front;
    } else {
      var shorter := Pumped(q, path, a, b, n - 1);
      Glued(q, shorter, front, a + 1);
      long := shorter + front[a + 1..];
    }
  }

  lemma PathPrefix(q: Query, path: Path, n: nat)
    requires IsPath(q, path) && n <= |path|
    ensures IsPath(q, path[..n])
  {
    var front := path[..n];
    forall i | 0 <= i < |front|
      ensures Extends(q, front[..i], front[i])
    {
      assert front[..i] == path[..i];
      assert Extends(q, path[..i], path[i]);
    }
  }

  /** Paths without repetition are no longer than there are edges. */
  lemma {:induction false} Pigeonhole(path: Path, n: nat)
    requires forall i :: 0 <= i < |path| ==> path[i] < n
    requires forall a, b :: 0 <= a < b < |path| ==> path[a] != path[b]
    ensures |path| <= n
    decreases n
  {
    if path != [] {
      assert path[0] < n;
      if k :| 0 <= k < |path| && path[k] == n - 1 {
        Pigeonhole(path[..k] + path[k + 1..], n - 1);
      } else {
        Pigeonhole(path, n - 1);
      }
    }
  }

  lemma CycleIsUnbounded(q: Query, limit: nat)
    requires q.maxDepth <= 0 && HasCycle(q)
    ensures !Bounded(q, limit)
  {
    var path, a, b :| IsRoute(q, path) && Repeats(path, a, b);
    hide IsPath, IsRoute;
    PathsAreRoutes(q, path);
    var long := Pumped(q, path, a, b, limit + 1);
  }

  lemma NoCycleIsBounded(q: Query)
    requires q.maxDepth <= 0 && !HasCycle(q)
    ensures Bounded(q, |q.edges|)
  {
    forall path | IsPath(q, path)
      ensures |path| <= |q.edges|
    {
      PathsAreRoutes(q, path);
      forall a, b | 0 <= a < b < |path|
        ensures path[a] != path[b]
      {
        assert !Repeats(path, a, b);
      }
      Pigeonhole(path, |q.edges|);
    }
  }

  lemma BoundedIffNoCycle(q: Query)
    ensures (exists limit :: Bounded(q, limit)) <==> q.maxDepth > 0 || !HasCycle(q)
  {
    if q.maxDepth > 0 {
      assert Bounded(q, q.maxDepth);
      return;
    }
    hide HasCycle, Bounded;
    if HasCycle(q) {
      forall limit: nat
        ensures !Bounded(q, limit)
      {
        CycleIsUnbounded(q, limit);
      }
    } else {
      NoCycleIsBounded(q);
    }
  }

  /** Both searches end exactly when a depth limit was given or no filtered path takes an edge twice. */
  lemma TerminatesIffNoCycle(q: Query, depthFirst: bool)
    ensures Terminates(q, depthFirst) <==> q.maxDepth > 0 || !HasCycle(q)
  {
    hide Terminates, Bounded, HasCycle;
    TerminatesIffBounded(q, depthFirst);
    BoundedIffNoCycle(q);
  }

  // ----- The input -----

  /** One node with an edge to itself, and no depth limit. */
  function Loop(): Query {
    Query([Edge(0, 0, 0)], 0, Outbound, 0, _ => true)
  }

  lemma LoopHasCycle()
    ensures HasCycle(Loop()) && Loop().maxDepth == 0
  {
    var path: Path := [0, 0];
    assert IsRoute(Loop(), path) && Repeats(path, 0, 1);
  }

  lemma LoopNeverEnds(depthFirst: bool)
    ensures !Terminates(Loop(), depthFirst)
  {
    LoopHasCycle();
    hide Loop, Terminates, HasCycle;
    TerminatesIffNoCycle(Loop(), depthFirst);
  }
}
