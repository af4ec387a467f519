/** The paths the enumerators hand over, told by the two endpoints of their edges alone. */
module Routes {
  import opened Digraphs
  import opened Triplestores

  /** The edge leaves `node` in the direction asked for; without a direction either endpoint will do. */
  predicate Leaves(e: Edge, node: NodeId, direction: Direction) {
    || (direction == Outbound && e.start == node)
    || (direction == Inbound && e.end == node)
    || (direction == Both && (e.start == node || e.end == node))
  }

  /** `second` may follow `first`. Without a direction the search goes on from the start of an edge, whichever way it came. */
  predicate Follows(first: Edge, second: Edge, direction: Direction) {
    || (direction == Outbound && first.end == second.start)
    || (direction == Inbound && first.start == second.end)
    || (direction == Both && (first.start == second.start || first.start == second.end))
  }

  /** Edges that pass the filter, the first one at the root, each following the one before. */
  ghost predicate IsRoute(q: Query, path: Path) {
    && (forall i :: 0 <= i < |path| ==> path[i] < |q.edges| && q.filter(q.edges[path[i]]))
    && (path != [] ==> Leaves(q.edges[path[0]], q.root, q.direction))
    && (forall i, j :: 0 <= i < |path| - 1 && j == i + 1 ==> Follows(q.edges[path[i]], q.edges[path[j]], q.direction))
  }

  /** No edge that passes the filter can follow the last one. */
  ghost predicate IsStuck(q: Query, path: Path)
    requires IsRoute(q, path) && path != []
  {
    forall e: nat :: e < |q.edges| && q.filter(q.edges[e]) ==> !Follows(q.edges[path[|path| - 1]], q.edges[e], q.direction)
  }

  /** The routes a search must hand over: those of `maxDepth` edges, and the shorter ones that are stuck. */
  ghost predicate IsEndOfRoute(q: Query, path: Path) {
    && path != [] && IsRoute(q, path)
    && (q.maxDepth > 0 ==> |path| <= q.maxDepth)
    && (|path| == q.maxDepth || IsStuck(q, path))
  }

  // ----- Paths are routes -----

  lemma LastStep(q: Query, path: Path, e: nat)
    requires InRange(q, path) && e < |q.edges|
    ensures Touches(q.edges[e], EndNode(q, path), q.direction) <==>
            if path == [] then Leaves(q.edges[e], q.root, q.direction) else Follows(q.edges[path[|path| - 1]], q.edges[e], q.direction)
  {
  }

  /** A route of `n` edges is one of `n - 1` edges and an edge that may be taken after it. */
  lemma RouteGrows(q: Query, path: Path)
    requires path != []
    ensures IsRoute(q, path) <==> IsRoute(q, path[..|path| - 1]) && Extends(q, path[..|path| - 1], path[|path| - 1])
  {
    hide Leaves, Follows, Touches, EndNode;
    var n := |path| - 1;
    var front, e := path[..n], path[n];
    if InRange(q, front) && e < |q.edges| {
      LastStep(q, front, e);
    }
    if IsRoute(q, front) && Extends(q, front, e) {
      forall i, j | 0 <= i < |path| - 1 && j == i + 1
        ensures Follows(q.edges[path[i]], q.edges[path[j]], q.direction)
      {
        assert path[i] == front[i] && (j < n ==> path[j] == front[j]);
      }
    }
  }

  lemma PathGrows(q: Query, path: Path)
    requires path != []
    ensures IsPath(q, path) <==> IsPath(q, path[..|path| - 1]) && Extends(q, path[..|path| - 1], path[|path| - 1])
  {
    hide Extends;
    var n := |path| - 1;
    var front := path[..n];
    assert forall i :: 0 <= i < n ==> front[..i] == path[..i] && front[i] == path[i];
    if IsPath(q, front) && Extends(q, front, path[n]) {
      ExtendsInRange(q, front, path[n]);
    }
  }

  lemma ExtendsInRange(q: Query, path: Path, e: nat)
    requires Extends(q, path, e)
    ensures e < |q.edges|
  {
  }

  /** The paths of a search are the routes. */
  lemma {:induction false} PathsAreRoutes(q: Query, path: Path)
    ensures IsPath(q, path) <==> IsRoute(q, path)
  {
    if path != [] {
      PathsAreRoutes(q, path[..|path| - 1]);
      PathGrows(q, path);
      RouteGrows(q, path);
    }
  }

  /** A path that ends is a route of full length or a stuck one. */
  lemma EndsAreEnds(q: Query, path: Path)
    requires path != [] && IsPath(q, path) && (q.maxDepth > 0 ==> |path| <= q.maxDepth)
    ensures IsRoute(q, path) && (Ends(q, path) <==> |path| == q.maxDepth || IsStuck(q, path))
  {
    PathsAreRoutes(q, path);
    hide IsRoute, Follows, Touches, EndNode;
    forall e: nat | e < |q.edges|
      ensures Extends(q, path, e) <==> q.filter(q.edges[e]) && Follows(q.edges[path[|path| - 1]], q.edges[e], q.direction)
    {
      LastStep(q, path, e);
    }
  }
}
