/** The order in which the enumerators hand over paths: the last branch first, or level by level. */
module PathOrders {
  import opened Digraphs
  import opened Triplestores

  /** The paths part after `k` edges, and `a` takes the edge that was added earlier. */
  ghost predicate PartsAt(a: Path, b: Path, k: nat) {
    k < |a| && k < |b| && a[..k] == b[..k] && a[k] < b[k]
  }

  ghost predicate IsBefore(a: Path, b: Path) {
    exists k: nat :: PartsAt(a, b, k)
  }

  /** Of two paths, the one that takes the later edge where they part comes first. */
  ghost predicate DepthFirst(paths: seq<Path>) {
    forall i, j :: 0 <= i < j < |paths| ==> IsBefore(paths[j], paths[i])
  }

  ghost predicate OnLevels(a: Path, b: Path) {
    |a| < |b| || (|a| == |b| && IsBefore(a, b))
  }

  /** Shorter paths come first, and paths of one length in the order of the edges they part with. */
  ghost predicate BreadthFirst(paths: seq<Path>) {
    forall i, j :: 0 <= i < j < |paths| ==> OnLevels(paths[i], paths[j])
  }

  // ----- Either order leaves no choice -----

  lemma Asymmetric(a: Path, b: Path)
    requires IsBefore(a, b)
    ensures !IsBefore(b, a)
  {
    var k: nat :| PartsAt(a, b, k);
    forall m: nat
      ensures !PartsAt(b, a, m)
    {
      if m <= |a| && m <= |b| {
        assert m < k ==> a[m] == a[..k][m] && b[m] == b[..k][m];
        assert k < m ==> a[k] == a[..m][k] && b[k] == b[..m][k];
      }
    }
  }

  lemma SameTail(a: seq<Path>, b: seq<Path>)
    requires a != [] && b != [] && a[0] == b[0] && multiset(a) == multiset(b)
    ensures multiset(a[1..]) == multiset(b[1..]) && (a[1..] == b[1..] ==> a == b)
  {
    assert a == [a[0]] + a[1..] && b == [b[0]] + b[1..];
    assert multiset(a[1..]) == multiset(a) - multiset{a[0]} && multiset(b[1..]) == multiset(b) - multiset{b[0]};
  }

  /** Where a path of one list is in the other. */
  lemma FoundIn(a: seq<Path>, b: seq<Path>, i: nat) returns (j: nat)
    requires multiset(a) == multiset(b) && i < |a|
    ensures j < |b| && b[j] == a[i]
  {
    assert a[i] in multiset(b);
    j :| j < |b| && b[j] == a[i];
  }

  /** Depth-first lists of the same paths are the same list. */
  lemma {:induction false} DepthFirstIsOne(a: seq<Path>, b: seq<Path>)
    requires multiset(a) == multiset(b) && DepthFirst(a) && DepthFirst(b)
    ensures a == b
  {
    assert |a| == |multiset(a)| == |multiset(b)| == |b|;
    if a != [] {
      var j := FoundIn(a, b, 0);
      var i := FoundIn(b, a, 0);
      if j > 0 && i > 0 {
        Asymmetric(a[0], b[0]);
      }
      SameTail(a, b);
      DepthFirstIsOne(a[1..], b[1..]);
    }
  }

  /** Breadth-first lists of the same paths are the same list. */
  lemma {:induction false} BreadthFirstIsOne(a: seq<Path>, b: seq<Path>)
    requires multiset(a) == multiset(b) && BreadthFirst(a) && BreadthFirst(b)
    ensures a == b
  {
    assert |a| == |multiset(a)| == |multiset(b)| == |b|;
    if a != [] {
      var j := FoundIn(a, b, 0);
      var i := FoundIn(b, a, 0);
      if j > 0 && i > 0 {
        assert OnLevels(b[0], b[j]) && OnLevels(a[0], a[i]);
        Asymmetric(a[0], b[0]);
      }
      SameTail(a, b);
      BreadthFirstIsOne(a[1..], b[1..]);
    }
  }

  // ----- Order and extension -----

  lemma BeforeGrows(a: Path, b: Path, x: nat)
    requires IsBefore(a, b)
    ensures IsBefore(a + [x], b) && IsBefore(a, b + [x])
  {
    var k: nat :| PartsAt(a, b, k);
    assert (a + [x])[..k] == a[..k] && (b + [x])[..k] == b[..k];
    assert PartsAt(a + [x], b, k) && PartsAt(a, b + [x], k);
  }

  ghost predicate GrowFrom(path: Path, children: seq<Path>) {
    && (forall i :: 0 <= i < |children| ==> |children[i]| == |path| + 1 && children[i][..|path|] == path)
    && (forall i, j :: 0 <= i < j < |children| ==> children[i][|path|] < children[j][|path|])
  }

  lemma {:induction false} FilteredAscends(q: Query, path: Path, indices: seq<nat>)
    requires forall i :: 0 <= i < |indices| ==> indices[i] < |q.edges|
    requires forall a, b :: 0 <= a < b < |indices| ==> indices[a] < indices[b]
    ensures GrowFrom(path, Filtered(q, path, indices))
    ensures indices == [] ==> Filtered(q, path, indices) == []
    ensures indices != [] ==> forall i :: 0 <= i < |Filtered(q, path, indices)| ==> Filtered(q, path, indices)[i][|path|] <= indices[|indices| - 1]
  {
    if indices != [] {
      FilteredAscends(q, path, indices[..|indices| - 1]);
    }
  }

  /** The children of a path are pushed in the order of their edges. */
  lemma ChildrenAscend(q: Query, path: Path)
    ensures GrowFrom(path, Children(q, path))
  {
    if InRange(q, path) && !DepthExceeded(q, path) {
      var indices := AdjacentIndices(q.edges, EndNode(q, path), q.direction, |q.edges|);
      assert forall i :: 0 <= i < |indices| ==> indices[i] in indices;
      FilteredAscends(q, path, indices);
    }
  }

  lemma ChildOrder(path: Path, children: seq<Path>, i: nat, j: nat)
    requires GrowFrom(path, children) && i < j < |children|
    ensures IsBefore(children[i], children[j])
  {
    assert PartsAt(children[i], children[j], |path|);
  }

  /** A child stands where its parent stood. */
  lemma ChildStands(path: Path, children: seq<Path>, i: nat, other: Path)
    requires GrowFrom(path, children) && i < |children|
    ensures IsBefore(path, other) ==> IsBefore(children[i], other)
    ensures IsBefore(other, path) ==> IsBefore(other, children[i])
  {
    assert children[i] == path + [children[i][|path|]];
    if IsBefore(path, other) {
      BeforeGrows(path, other, children[i][|path|]);
    }
    if IsBefore(other, path) {
      BeforeGrows(other, path, children[i][|path|]);
    }
  }

  // ----- Taking from the back -----

  /** The deque ascends to its back, and everything in it stands before everything handed over. */
  ghost predicate Stacked(handed: seq<Path>, deque: seq<Path>) {
    && DepthFirst(handed)
    && (forall i, j :: 0 <= i < j < |deque| ==> IsBefore(deque[i], deque[j]))
    && (forall i, j :: 0 <= i < |handed| && 0 <= j < |deque| ==> IsBefore(deque[j], handed[i]))
  }

  lemma StackPushed(handed: seq<Path>, rest: seq<Path>, next: Path, children: seq<Path>)
    requires Stacked(handed, rest + [next]) && GrowFrom(next, children)
    ensures Stacked(handed, rest + children)
  {
    hide IsBefore, DepthFirst;
    var before, after := rest + [next], rest + children;
    assert before[|rest|] == next && forall i :: 0 <= i < |rest| ==> before[i] == rest[i] && after[i] == rest[i];
    forall i, j | 0 <= i < j < |after|
      ensures IsBefore(after[i], after[j])
    {
      if j >= |rest| {
        if i < |rest| {
          assert IsBefore(before[i], before[|rest|]);
          ChildStands(next, children, j - |rest|, after[i]);
        } else {
          ChildOrder(next, children, i - |rest|, j - |rest|);
        }
      } else {
        assert IsBefore(before[i], before[j]);
      }
    }
    forall i, j | 0 <= i < |handed| && 0 <= j < |after|
      ensures IsBefore(after[j], handed[i])
    {
      if j >= |rest| {
        assert IsBefore(before[|rest|], handed[i]);
        ChildStands(next, children, j - |rest|, handed[i]);
      } else {
        assert IsBefore(before[j], handed[i]);
      }
    }
  }

  lemma StackHanded(handed: seq<Path>, rest: seq<Path>, next: Path)
    requires Stacked(handed, rest + [next])
    ensures Stacked(handed + [next], rest)
  {
    hide IsBefore;
    var before, more := rest + [next], handed + [next];
    assert before[|rest|] == next && forall i :: 0 <= i < |rest| ==> before[i] == rest[i];
    forall i, j | 0 <= i < j < |more|
      ensures IsBefore(more[j], more[i])
    {
      if j == |handed| {
        assert IsBefore(before[|rest|], handed[i]);
      }
    }
  }

  // ----- Taking from the front -----

  /** One level and part of the next, in order; what is on the next level stands before what is left of this one. */
  ghost predicate Layered(handed: seq<Path>, deque: seq<Path>) {
    && BreadthFirst(handed) && BreadthFirst(deque)
    && (forall i :: 0 <= i < |deque| ==> |deque[i]| <= |deque[0]| + 1)
    && (forall i, j :: 0 <= i < j < |deque| && |deque[i]| < |deque[j]| ==> IsBefore(deque[j], deque[i]))
    && (forall i, j :: 0 <= i < |handed| && 0 <= j < |deque| ==> OnLevels(handed[i], deque[j]))
  }

  /** What holds of the front, and of what is behind it. */
  ghost predicate Fronted(handed: seq<Path>, next: Path, rest: seq<Path>) {
    && BreadthFirst(rest)
    && (forall i, j :: 0 <= i < j < |rest| && |rest[i]| < |rest[j]| ==> IsBefore(rest[j], rest[i]))
    && (forall i, j :: 0 <= i < |handed| && 0 <= j < |rest| ==> OnLevels(handed[i], rest[j]))
    && (forall i :: 0 <= i < |rest| ==> |rest[i]| <= |next| + 1 && OnLevels(next, rest[i]) && (|next| < |rest[i]| ==> IsBefore(rest[i], next)))
    && (forall i :: 0 <= i < |handed| ==> OnLevels(handed[i], next))
  }

  lemma TakeFront(handed: seq<Path>, next: Path, rest: seq<Path>)
    requires Layered(handed, [next] + rest)
    ensures Fronted(handed, next, rest)
  {
    hide IsBefore;
    var before := [next] + rest;
    assert before[0] == next && before[1..] == rest;
    assert forall i :: 0 <= i < |rest| ==> rest[i] == before[i + 1];
  }

  lemma PushedPair(handed: seq<Path>, next: Path, rest: seq<Path>, children: seq<Path>, i: nat, j: nat)
    requires Fronted(handed, next, rest) && GrowFrom(next, children) && i < j < |rest + children|
    ensures var after := rest + children;
            OnLevels(after[i], after[j]) && (|after[i]| < |after[j]| ==> IsBefore(after[j], after[i]))
  {
    hide IsBefore;
    var n := |rest|;
    if j >= n {
      if i < n {
        ChildStands(next, children, j - n, rest[i]);
      } else {
        ChildOrder(next, children, i - n, j - n);
      }
    }
  }

  ghost predicate Behind(paths: seq<Path>) {
    forall i, j :: 0 <= i < j < |paths| && |paths[i]| < |paths[j]| ==> IsBefore(paths[j], paths[i])
  }

  lemma PushedOrder(handed: seq<Path>, next: Path, rest: seq<Path>, children: seq<Path>)
    requires Fronted(handed, next, rest) && GrowFrom(next, children)
    ensures BreadthFirst(rest + children) && Behind(rest + children)
  {
    hide IsBefore, Fronted, GrowFrom, OnLevels;
    var after := rest + children;
    forall i, j | 0 <= i < j < |after|
      ensures OnLevels(after[i], after[j]) && (|after[i]| < |after[j]| ==> IsBefore(after[j], after[i]))
    {
      PushedPair(handed, next, rest, children, i, j);
    }
  }

  lemma PushedLengths(handed: seq<Path>, next: Path, rest: seq<Path>, children: seq<Path>)
    requires Fronted(handed, next, rest) && GrowFrom(next, children)
    ensures forall i :: 0 <= i < |rest + children| ==> |next| <= |(rest + children)[i]| <= |next| + 1
    ensures forall i, j :: 0 <= i < |handed| && 0 <= j < |rest + children| ==> OnLevels(handed[i], (rest + children)[j])
  {
    hide IsBefore, BreadthFirst;
  }

  lemma LayersPushed(handed: seq<Path>, next: Path, rest: seq<Path>, children: seq<Path>)
    requires Layered(handed, [next] + rest) && GrowFrom(next, children)
    ensures Layered(handed, rest + children)
  {
    hide IsBefore, OnLevels, GrowFrom, Fronted, BreadthFirst;
    TakeFront(handed, next, rest);
    PushedOrder(handed, next, rest, children);
    PushedLengths(handed, next, rest, children);
  }

  lemma LayersHanded(handed: seq<Path>, next: Path, rest: seq<Path>)
    requires Layered(handed, [next] + rest)
    ensures Layered(handed + [next], rest)
  {
    TakeFront(handed, next, rest);
    hide IsBefore;
    var more := handed + [next];
    assert forall i :: 0 <= i < |rest| ==> |next| <= |rest[i]| <= |next| + 1;
    assert forall i :: 0 <= i < |more| ==> more[i] == if i < |handed| then handed[i] else next;
    assert BreadthFirst(handed);
    assert BreadthFirst(more);
  }
}
