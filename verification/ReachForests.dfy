/** The memoising search on graphs where no component has two predecessors: every entry it stores is exact. */
module ReachForests {
  import opened Digraphs
  import opened SieveCache
  import opened ReachSearch
  import opened ReachCalls
  import opened Components

  /** In the direction of travel, no component is a neighbour of two others. */
  ghost predicate OnePredecessor(h: Digraph, direction: Direction) {
    forall u, v, x :: x in h.Adjacent(u, direction) && x in h.Adjacent(v, direction) ==> u == v
  }

  ghost predicate Acyclic(h: Digraph, direction: Direction) {
    forall u, v :: v in h.Adjacent(u, direction) ==> !Reaches(h, direction, v, u)
  }

  ghost predicate Forest(h: Digraph, direction: Direction) {
    OnePredecessor(h, direction) && Acyclic(h, direction)
  }

  lemma ReachesLast(h: Digraph, direction: Direction, u: NodeId, v: NodeId) returns (w: NodeId)
    requires Reaches(h, direction, u, v) && u != v
    ensures Reaches(h, direction, u, w) && v in h.Adjacent(w, direction)
  {
    var n: nat :| Walk(h, direction, u, v, n);
    w := WalkLast(h, direction, u, v, n - 1);
  }

  lemma ReachesFirst(h: Digraph, direction: Direction, u: NodeId, v: NodeId) returns (w: NodeId)
    requires Reaches(h, direction, u, v) && u != v
    ensures w in h.Adjacent(u, direction) && Reaches(h, direction, w, v)
  {
    var n: nat :| Walk(h, direction, u, v, n);
    w :| w in h.Adjacent(u, direction) && Walk(h, direction, w, v, n - 1);
  }

  // ----- What a stack of cursors has behind it -----

  ghost predicate Passed(c: ReachCursor, z: NodeId) {
    exists k :: 0 <= k < c.adjacentIdx && k < |c.adjacent| && c.adjacent[k] == z
  }

  /** Cursor `i` is done with its neighbour `z`: it passed it, and `z` is not open above it. */
  ghost predicate Settled(stack: seq<ReachCursor>, i: int, z: NodeId) {
    0 <= i < |stack| && Passed(stack[i], z) && (i + 1 < |stack| ==> z != stack[i + 1].component)
  }

  /** Each cursor was opened for a neighbour the one below it passed. */
  ghost predicate Branch(stack: seq<ReachCursor>) {
    forall i, j :: 0 <= i < |stack| - 1 && j == i + 1 ==> Passed(stack[i], stack[j].component)
  }

  /** A cursor's bitmap holds all that its settled neighbours reach. */
  ghost predicate Contained(h: Digraph, direction: Direction, stack: seq<ReachCursor>) {
    forall i, z, y :: 0 <= i < |stack| && Settled(stack, i, z) && Reaches(h, direction, z, y) ==> y in stack[i].reach
  }

  /** `y` is reachable from a settled neighbour. */
  ghost predicate Under(h: Digraph, direction: Direction, stack: seq<ReachCursor>, y: NodeId) {
    exists i, z :: Settled(stack, i, z) && Reaches(h, direction, z, y)
  }

  /** Whatever was visited is open or was reached through a settled neighbour. */
  ghost predicate Explained(h: Digraph, direction: Direction, stack: seq<ReachCursor>) {
    stack != [] && forall y :: y in stack[0].reach ==> OnStack(stack, y) || Under(h, direction, stack, y)
  }

  ghost predicate Grown(h: Digraph, direction: Direction, stack: seq<ReachCursor>) {
    Branch(stack) && Contained(h, direction, stack) && Explained(h, direction, stack)
  }

  lemma PassedAdjacent(h: Digraph, direction: Direction, stack: seq<ReachCursor>, i: nat, z: NodeId)
    requires SoundStack(h, direction, stack) && i < |stack| && Passed(stack[i], z)
    ensures z in h.Adjacent(stack[i].component, direction) && z in stack[0].reach
  {
    assert SoundCursor(h, direction, stack[i]);
    var k :| 0 <= k < stack[i].adjacentIdx && k < |stack[i].adjacent| && stack[i].adjacent[k] == z;
    hide Reaches, SoundCursors, Linked, Populated;
  }

  lemma {:induction false} BranchReaches(h: Digraph, direction: Direction, stack: seq<ReachCursor>, i: nat, j: nat)
    requires SoundStack(h, direction, stack) && i <= j < |stack|
    ensures Reaches(h, direction, stack[i].component, stack[j].component)
    decreases j
  {
    hide Reaches, SoundCursors, Populated, PassedVisited;
    if i == j {
      ReachesSelf(h, direction, stack[i].component);
    } else {
      BranchReaches(h, direction, stack, i, j - 1);
      ReachesTrans(h, direction, stack[i].component, stack[j - 1].component, stack[j].component);
    }
  }

  /** No component is open twice. */
  lemma BranchDistinct(h: Digraph, direction: Direction, stack: seq<ReachCursor>, i: nat, j: nat)
    requires SoundStack(h, direction, stack) && Branch(stack) && Acyclic(h, direction) && i < j < |stack|
    ensures stack[i].component != stack[j].component
  {
    hide SoundStack, Reaches;
    PassedAdjacent(h, direction, stack, j - 1, stack[j].component);
    BranchReaches(h, direction, stack, i, j - 1);
  }

  /** A settled neighbour does not lead back to the open branch. */
  lemma {:induction false} SettledAside(h: Digraph, direction: Direction, stack: seq<ReachCursor>, i: nat, z: NodeId, j: nat)
    requires SoundStack(h, direction, stack) && Branch(stack) && Forest(h, direction)
    requires Settled(stack, i, z) && i <= j < |stack|
    ensures !Reaches(h, direction, z, stack[j].component)
    decreases j
  {
    hide SoundStack, Reaches, Passed;
    PassedAdjacent(h, direction, stack, i, z);
    if i < j {
      var c := stack[j].component;
      SettledAside(h, direction, stack, i, z, j - 1);
      PassedAdjacent(h, direction, stack, j - 1, c);
      if i < j - 1 {
        BranchDistinct(h, direction, stack, i, j - 1);
      }
      if z != c && Reaches(h, direction, z, c) {
        var _ := ReachesLast(h, direction, z, c);
      }
    }
  }

  /** A neighbour that was visited before the top cursor came to it is one it has already passed. */
  lemma VisitedIsSettled(h: Digraph, direction: Direction, stack: seq<ReachCursor>, next: NodeId)
    requires SoundStack(h, direction, stack) && Grown(h, direction, stack) && Forest(h, direction)
    requires next in h.Adjacent(stack[|stack| - 1].component, direction) && next in stack[0].reach
    ensures Settled(stack, |stack| - 1, next)
  {
    var n := |stack|;
    hide SoundStack, Reaches, Passed, Contained, Settled, Branch;
    assert !OnStack(stack, next) by {
      if j :| 0 <= j < n && stack[j].component == next {
        BranchReaches(h, direction, stack, j, n - 1);
      }
    }
    var i, z :| Settled(stack, i, z) && Reaches(h, direction, z, next);
    SettledFacts(stack, i, z);
    PassedAdjacent(h, direction, stack, i, z);
    SettledAside(h, direction, stack, i, z, n - 1);
    if z != next {
      var _ := ReachesLast(h, direction, z, next);
    } else if i < n - 1 {
      BranchDistinct(h, direction, stack, i, n - 1);
    }
  }

  lemma SettledFacts(stack: seq<ReachCursor>, i: int, z: NodeId)
    requires Settled(stack, i, z)
    ensures 0 <= i < |stack| && Passed(stack[i], z)
  {
  }

  // ----- Steps that look at a neighbour -----

  /** Settled neighbours stay settled; new ones bring their reach; newly visited components are explained. */
  lemma GrowthKept(h: Digraph, direction: Direction, s: seq<ReachCursor>, t: seq<ReachCursor>)
    requires Contained(h, direction, s) && Explained(h, direction, s) && |s| <= |t|
    requires forall i :: 0 <= i < |s| ==> s[i].component == t[i].component && s[i].reach <= t[i].reach
    requires forall i, z :: Settled(s, i, z) ==> Settled(t, i, z)
    requires forall i, z, y :: 0 <= i < |t| && Settled(t, i, z) && !Settled(s, i, z) && Reaches(h, direction, z, y) ==> y in t[i].reach
    requires forall y :: y in t[0].reach && y !in s[0].reach ==> OnStack(t, y) || Under(h, direction, t, y)
    ensures Contained(h, direction, t) && Explained(h, direction, t)
  {
    hide Reaches, Passed, Settled;
    forall i, z, y | 0 <= i < |t| && Settled(t, i, z) && Reaches(h, direction, z, y)
      ensures y in t[i].reach
    {
      if Settled(s, i, z) {
        SettledFacts(s, i, z);
      }
    }
    forall y | y in s[0].reach
      ensures OnStack(t, y) || Under(h, direction, t, y)
    {
      if OnStack(s, y) {
        var i :| 0 <= i < |s| && s[i].component == y;
        assert t[i].component == y;
      } else {
        var i, z :| Settled(s, i, z) && Reaches(h, direction, z, y);
        assert Settled(t, i, z);
      }
    }
  }

  /** Moving the top cursor on passes one more neighbour and changes nothing else. */
  lemma AdvanceSettles(s: Search, next: NodeId, i: int, z: NodeId)
    requires s.stack != [] && Top(s).adjacentIdx < |Top(s).adjacent| && next == Top(s).adjacent[Top(s).adjacentIdx]
    ensures Settled(Advance(s).stack, i, z) <==> Settled(s.stack, i, z) || (i == |s.stack| - 1 && z == next)
  {
    var n, a, top := |s.stack|, Advance(s).stack, Top(s);
    assert Passed(a[n - 1], next) by {
      assert a[n - 1].adjacent[top.adjacentIdx] == next;
    }
    if Passed(top, z) {
      var k :| 0 <= k < top.adjacentIdx && k < |top.adjacent| && top.adjacent[k] == z;
      assert a[n - 1].adjacent[k] == z;
    }
    if 0 <= i < n {
      assert i < n - 1 ==> a[i] == s.stack[i] && a[i + 1].component == s.stack[i + 1].component;
    }
  }

  lemma AdvanceBranch(s: Search)
    requires s.stack != [] && Branch(s.stack)
    ensures Branch(Advance(s).stack)
  {
    var a := Advance(s).stack;
    assert forall i :: 0 <= i < |a| - 1 ==> a[i] == s.stack[i];
    assert forall i :: 0 <= i < |a| ==> a[i].component == s.stack[i].component;
  }

  lemma SkipSettled(s: Search, next: NodeId)
    requires s.stack != [] && Top(s).adjacentIdx < |Top(s).adjacent| && next == Top(s).adjacent[Top(s).adjacentIdx]
    requires Settled(s.stack, |s.stack| - 1, next)
    ensures forall i, z :: Settled(Advance(s).stack, i, z) <==> Settled(s.stack, i, z)
  {
    hide Settled, Advance;
    forall i, z
      ensures Settled(Advance(s).stack, i, z) <==> Settled(s.stack, i, z)
    {
      AdvanceSettles(s, next, i, z);
    }
  }

  lemma AdvanceShape(s: Search)
    requires s.stack != []
    ensures |Advance(s).stack| == |s.stack|
    ensures forall i :: 0 <= i < |s.stack| ==> Advance(s).stack[i].component == s.stack[i].component && Advance(s).stack[i].reach == s.stack[i].reach
  {
  }

  lemma SkipGrown(h: Digraph, direction: Direction, s: Search, next: NodeId)
    requires SoundStack(h, direction, s.stack) && Grown(h, direction, s.stack) && Forest(h, direction)
    requires s.stack != [] && Top(s).adjacentIdx < |Top(s).adjacent| && next == Top(s).adjacent[Top(s).adjacentIdx]
    requires next in h.Adjacent(Top(s).component, direction) && next in s.stack[0].reach
    ensures Grown(h, direction, Advance(s).stack)
  {
    hide SoundStack, Reaches, Settled, Contained, Explained, Branch, Advance, Forest;
    VisitedIsSettled(h, direction, s.stack, next);
    AdvanceBranch(s);
    AdvanceShape(s);
    SkipSettled(s, next);
    GrowthKept(h, direction, s.stack, Advance(s).stack);
  }

  /** A stack with the same cursors and larger bitmaps has the same settled neighbours. */
  lemma WiderSettled(s: seq<ReachCursor>, t: seq<ReachCursor>, i: int, z: NodeId)
    requires |s| == |t|
    requires forall i :: 0 <= i < |s| ==> s[i].component == t[i].component && s[i].adjacent == t[i].adjacent && s[i].adjacentIdx == t[i].adjacentIdx
    ensures Settled(t, i, z) <==> Settled(s, i, z)
  {
  }

  lemma WiderBranch(s: seq<ReachCursor>, t: seq<ReachCursor>)
    requires |s| == |t| && Branch(s)
    requires forall i :: 0 <= i < |s| ==> s[i].component == t[i].component && s[i].adjacent == t[i].adjacent && s[i].adjacentIdx == t[i].adjacentIdx
    ensures Branch(t)
  {
    forall i, j | 0 <= i < |t| - 1 && j == i + 1
      ensures Passed(t[i], t[j].component)
    {
      assert Passed(s[i], s[j].component);
    }
  }

  lemma CachedGrown(h: Digraph, direction: Direction, s: Search, next: NodeId, cached: Reach)
    requires Grown(h, direction, s.stack) && ExactEntry(h, direction, next, cached)
    requires s.stack != [] && Top(s).adjacentIdx < |Top(s).adjacent| && next == Top(s).adjacent[Top(s).adjacentIdx]
    ensures Grown(h, direction, OrInto(OrInto(Advance(s).stack, 0, {next}), |s.stack| - 1, cached))
  {
    var n, a := |s.stack|, Advance(s).stack;
    var t := OrInto(OrInto(a, 0, {next}), n - 1, cached);
    AdvanceBranch(s);
    WiderBranch(a, t);
    ReachesSelf(h, direction, next);
    assert forall y :: y in t[0].reach ==> y in s.stack[0].reach || y in cached;
    assert cached <= t[n - 1].reach;
    assert forall i :: 0 <= i < n ==> t[i].component == s.stack[i].component && s.stack[i].reach <= t[i].reach;
    forall i, z
      ensures Settled(t, i, z) <==> Settled(s.stack, i, z) || (i == n - 1 && z == next)
    {
      AdvanceSettles(s, next, i, z);
      WiderSettled(a, t, i, z);
    }
    hide Reaches, Settled, Contained, Explained, Branch, Advance, OrInto;
    forall y | y in cached
      ensures Under(h, direction, t, y)
    {
      assert Settled(t, n - 1, next) && Reaches(h, direction, next, y);
    }
    GrowthKept(h, direction, s.stack, t);
  }

  /** A cursor opened for `next` keeps it from being settled below, and has settled nothing itself. */
  lemma PushSettled(a: seq<ReachCursor>, c: ReachCursor, i: int, z: NodeId)
    requires a != [] && c.adjacentIdx == 0
    ensures Settled(a + [c], i, z) <==> Settled(a, i, z) && (i == |a| - 1 ==> z != c.component)
  {
  }

  lemma PushBranch(a: seq<ReachCursor>, c: ReachCursor)
    requires a != [] && Branch(a) && Passed(a[|a| - 1], c.component)
    ensures Branch(a + [c])
  {
    hide Passed;
  }

  /** Opening a cursor for an unvisited neighbour settles nothing. */
  lemma OpenSettled(h: Digraph, direction: Direction, s: Search, next: NodeId, i: int, z: NodeId)
    requires SoundStack(h, direction, s.stack)
    requires s.stack != [] && Top(s).adjacentIdx < |Top(s).adjacent| && next == Top(s).adjacent[Top(s).adjacentIdx]
    requires next !in s.stack[0].reach
    ensures Settled(OrInto(Advance(s).stack, 0, {next}) + [NewCursor(h, direction, next)], i, z) <==> Settled(s.stack, i, z)
  {
    var a, c := Advance(s).stack, NewCursor(h, direction, next);
    var b := OrInto(a, 0, {next});
    AdvanceSettles(s, next, i, z);
    WiderSettled(a, b, i, z);
    PushSettled(b, c, i, z);
    if Settled(s.stack, i, z) {
      SettledFacts(s.stack, i, z);
      PassedAdjacent(h, direction, s.stack, i, z);
    }
    hide SoundStack, Settled, Advance, OrInto;
  }

  lemma OpenBranch(h: Digraph, direction: Direction, s: Search, next: NodeId)
    requires s.stack != [] && Branch(s.stack)
    requires Top(s).adjacentIdx < |Top(s).adjacent| && next == Top(s).adjacent[Top(s).adjacentIdx]
    ensures Branch(OrInto(Advance(s).stack, 0, {next}) + [NewCursor(h, direction, next)])
  {
    var n, a := |s.stack|, Advance(s).stack;
    var b := OrInto(a, 0, {next});
    AdvanceBranch(s);
    WiderBranch(a, b);
    assert Passed(b[n - 1], next) by {
      assert b[n - 1].adjacent[Top(s).adjacentIdx] == next;
    }
    PushBranch(b, NewCursor(h, direction, next));
  }

  lemma OpenShape(h: Digraph, direction: Direction, s: Search, next: NodeId)
    requires s.stack != []
    ensures var t := OrInto(Advance(s).stack, 0, {next}) + [NewCursor(h, direction, next)];
            && |t| == |s.stack| + 1 && OnStack(t, next)
            && (forall i :: 0 <= i < |s.stack| ==> t[i].component == s.stack[i].component && s.stack[i].reach <= t[i].reach)
            && (forall y :: y in t[0].reach ==> y in s.stack[0].reach || y == next)
  {
    var t := OrInto(Advance(s).stack, 0, {next}) + [NewCursor(h, direction, next)];
    assert t[|s.stack|].component == next;
  }

  lemma PushGrown(h: Digraph, direction: Direction, s: Search, next: NodeId)
    requires SoundStack(h, direction, s.stack) && Grown(h, direction, s.stack)
    requires s.stack != [] && Top(s).adjacentIdx < |Top(s).adjacent| && next == Top(s).adjacent[Top(s).adjacentIdx]
    requires next !in s.stack[0].reach
    ensures Grown(h, direction, OrInto(Advance(s).stack, 0, {next}) + [NewCursor(h, direction, next)])
  {
    var t := OrInto(Advance(s).stack, 0, {next}) + [NewCursor(h, direction, next)];
    hide Reaches, Settled, Contained, Explained, Branch, Advance, OrInto, OnStack, SoundStack, NewCursor;
    OpenBranch(h, direction, s, next);
    OpenShape(h, direction, s, next);
    forall i, z
      ensures Settled(t, i, z) <==> Settled(s.stack, i, z)
    {
      OpenSettled(h, direction, s, next, i, z);
    }
    GrowthKept(h, direction, s.stack, t);
  }

  // ----- Popping a cursor -----

  /** An exhausted top cursor has settled all its neighbours, so its bitmap is all it reaches. */
  lemma TopExact(h: Digraph, direction: Direction, stack: seq<ReachCursor>)
    requires SoundStack(h, direction, stack) && stack != [] && Contained(h, direction, stack)
    requires stack[|stack| - 1].adjacentIdx >= |stack[|stack| - 1].adjacent|
    ensures ExactEntry(h, direction, stack[|stack| - 1].component, stack[|stack| - 1].reach)
  {
    var n := |stack|;
    var top := stack[n - 1];
    assert SoundCursor(h, direction, top);
    hide SoundStack, Reaches;
    forall y | Reaches(h, direction, top.component, y)
      ensures y in top.reach
    {
      if y != top.component {
        var w := ReachesFirst(h, direction, top.component, y);
        var k :| 0 <= k < |top.adjacent| && top.adjacent[k] == w;
        assert Settled(stack, n - 1, w);
      }
    }
  }

  /** Popping settles the popped component one cursor down. */
  lemma RolledUpSettled(stack: seq<ReachCursor>, i: int, z: NodeId)
    requires |stack| > 1 && Branch(stack)
    ensures Settled(RolledUp(stack), i, z)
            <==> (i < |stack| - 1 && Settled(stack, i, z)) || (i == |stack| - 2 && z == stack[|stack| - 1].component)
  {
    var n, t := |stack|, RolledUp(stack);
    assert Passed(stack[n - 2], stack[n - 1].component);
    if 0 <= i < n - 1 {
      assert Passed(t[i], z) <==> Passed(stack[i], z);
      assert i < n - 2 ==> t[i + 1].component == stack[i + 1].component;
    }
  }

  lemma RolledUpContained(h: Digraph, direction: Direction, stack: seq<ReachCursor>)
    requires |stack| > 1 && Branch(stack) && Contained(h, direction, stack)
    requires ExactEntry(h, direction, stack[|stack| - 1].component, stack[|stack| - 1].reach)
    ensures Contained(h, direction, RolledUp(stack))
  {
    var n, t := |stack|, RolledUp(stack);
    assert forall i :: 0 <= i < n - 1 ==> stack[i].reach <= t[i].reach;
    assert stack[n - 1].reach <= t[n - 2].reach;
    hide Reaches, Settled, RolledUp, Branch;
    forall i, z, y | 0 <= i < |t| && Settled(t, i, z) && Reaches(h, direction, z, y)
      ensures y in t[i].reach
    {
      RolledUpSettled(stack, i, z);
    }
  }

  lemma RolledUpExplained(h: Digraph, direction: Direction, stack: seq<ReachCursor>, y: NodeId)
    requires |stack| > 1 && Branch(stack) && SoundStack(h, direction, stack) && Explained(h, direction, stack)
    requires y in stack[0].reach || y in stack[|stack| - 1].reach
    ensures OnStack(RolledUp(stack), y) || Under(h, direction, RolledUp(stack), y)
  {
    var n, t := |stack|, RolledUp(stack);
    var c := stack[n - 1].component;
    RolledUpSettled(stack, n - 2, c);
    assert SoundCursor(h, direction, stack[n - 1]);
    ReachesSelf(h, direction, c);
    hide SoundStack, Reaches, Settled, RolledUp, Branch, Passed;
    if !Reaches(h, direction, c, y) {
      if OnStack(stack, y) {
        var i :| 0 <= i < n && stack[i].component == y;
        RolledUpComponents(stack, i);
      } else {
        var i, z :| Settled(stack, i, z) && Reaches(h, direction, z, y);
        SettledFacts(stack, i, z);
        if i == n - 1 {
          PassedAdjacent(h, direction, stack, i, z);
          ReachesEdge(h, direction, c, z);
          ReachesTrans(h, direction, c, z, y);
        }
        RolledUpSettled(stack, i, z);
      }
    }
  }

  lemma RolledUpBranch(stack: seq<ReachCursor>)
    requires |stack| > 1 && Branch(stack)
    ensures Branch(RolledUp(stack))
  {
    var b := stack[..|stack| - 1];
    assert forall i :: 0 <= i < |b| ==> b[i] == stack[i];
    assert Branch(b);
    WiderBranch(b, RolledUp(stack));
  }

  lemma RolledUpGrown(h: Digraph, direction: Direction, stack: seq<ReachCursor>)
    requires |stack| > 1 && SoundStack(h, direction, stack) && Grown(h, direction, stack)
    requires stack[|stack| - 1].adjacentIdx >= |stack[|stack| - 1].adjacent|
    ensures Grown(h, direction, RolledUp(stack))
  {
    var t := RolledUp(stack);
    assert forall y :: y in t[0].reach ==> y in stack[0].reach || y in stack[|stack| - 1].reach;
    hide SoundStack, Branch, Contained, RolledUp;
    TopExact(h, direction, stack);
    RolledUpBranch(stack);
    RolledUpContained(h, direction, stack);
    forall y | y in t[0].reach
      ensures OnStack(t, y) || Under(h, direction, t, y)
    {
      RolledUpExplained(h, direction, stack, y);
    }
  }

  // ----- Whole searches and runs -----

  /** All entries are exact, and so will be those of the open cursors. */
  ghost predicate ForestRun(h: Digraph, direction: Direction, s: Search) {
    ExactCache(h, direction, s.cache) && (s.stack != [] ==> Grown(h, direction, s.stack))
  }

  lemma StoreExact(h: Digraph, direction: Direction, cache: ReachCache, k: NodeId, reach: Reach)
    requires Valid(cache) && ExactCache(h, direction, cache) && ExactEntry(h, direction, k, reach)
    ensures ExactCache(h, direction, Store(cache, direction, k, reach))
  {
    PutKeepsValid(cache, k, reach);
    hide Valid, AfterPut, ExactEntry;
  }

  lemma LookupExact(h: Digraph, direction: Direction, cache: ReachCache, k: NodeId)
    requires Valid(cache) && ExactCache(h, direction, cache)
    ensures ExactCache(h, direction, Lookup(cache, direction, k).0)
    ensures Lookup(cache, direction, k).1.Some? ==> ExactEntry(h, direction, k, Lookup(cache, direction, k).1.value)
  {
    LookupKeeps(h, direction, cache, k);
    hide Valid, ExactEntry;
  }

  lemma NextAdjacent(h: Digraph, direction: Direction, s: Search)
    requires SoundStack(h, direction, s.stack) && s.stack != [] && Top(s).adjacentIdx < |Top(s).adjacent|
    ensures Top(s).adjacent[Top(s).adjacentIdx] in h.Adjacent(Top(s).component, direction)
  {
    assert SoundCursor(h, direction, Top(s));
  }

  lemma ExploreGrown(h: Digraph, s: Search, direction: Direction)
    requires Valid(s.cache) && SoundStack(h, direction, s.stack) && Forest(h, direction)
    requires ExactCache(h, direction, s.cache) && s.stack != [] && Grown(h, direction, s.stack)
    requires Top(s).adjacentIdx < |Top(s).adjacent|
    ensures ForestRun(h, direction, Explore(h, s, direction))
  {
    var next := Top(s).adjacent[Top(s).adjacentIdx];
    assert Advance(s).stack[0].reach == s.stack[0].reach;
    hide Valid, SoundStack, Grown, Lookup, ExactCache, ExactEntry, Forest, OrInto, NewCursor;
    NextAdjacent(h, direction, s);
    LookupExact(h, direction, s.cache, next);
    var (_, cached) := Lookup(s.cache, direction, next);
    if next in s.stack[0].reach {
      SkipGrown(h, direction, s, next);
    } else if cached.Some? {
      CachedGrown(h, direction, s, next, cached.value);
    } else {
      PushGrown(h, direction, s, next);
    }
  }

  lemma FinishGrown(h: Digraph, s: Search, direction: Direction)
    requires Valid(s.cache) && SoundStack(h, direction, s.stack)
    requires ExactCache(h, direction, s.cache) && s.stack != [] && Grown(h, direction, s.stack)
    requires Top(s).adjacentIdx >= |Top(s).adjacent|
    ensures ForestRun(h, direction, Finish(s, direction))
  {
    hide Valid, SoundStack, Contained, Branch, Explained, ExactCache, ExactEntry, Store, OrInto;
    TopExact(h, direction, s.stack);
    StoreExact(h, direction, s.cache, Top(s).component, Top(s).reach);
    if |s.stack| > 1 {
      RolledUpGrown(h, direction, s.stack);
      assert Finish(s, direction).stack == RolledUp(s.stack);
    }
  }

  lemma StepGrown(h: Digraph, s: Search, direction: Direction)
    requires SoundSearch(h, direction, s) && Forest(h, direction) && ForestRun(h, direction, s)
    ensures ForestRun(h, direction, Step(h, s, direction))
  {
    SearchFacts(h, s, direction);
    hide SoundSearch, Forest, Grown, ExactCache, Valid, Explore, Finish;
    if s.stack != [] {
      if Top(s).adjacentIdx < |Top(s).adjacent| {
        ExploreGrown(h, s, direction);
      } else {
        FinishGrown(h, s, direction);
      }
    }
  }

  lemma BeginGrown(h: Digraph, cache: ReachCache, direction: Direction, start: NodeId)
    requires ExactCache(h, direction, cache)
    ensures ForestRun(h, direction, Begin(h, cache, direction, start))
  {
    var stack := Begin(h, cache, direction, start).stack;
    assert stack[0].component == start;
    hide ExactCache, Reaches;
  }

  lemma {:induction false} StepsGrown(h: Digraph, cache: ReachCache, direction: Direction, start: NodeId, n: nat)
    requires Valid(cache) && SoundCache(h, direction, cache) && ExactCache(h, direction, cache) && Forest(h, direction)
    ensures ForestRun(h, direction, Steps(h, Begin(h, cache, direction, start), direction, n))
    decreases n
  {
    hide Valid, SoundCache, ExactCache, Forest, ForestRun, Step;
    if n == 0 {
      BeginGrown(h, cache, direction, start);
    } else {
      StepsGrown(h, cache, direction, start, n - 1);
      StepsRun(h, cache, direction, start, n - 1);
      StepGrown(h, Steps(h, Begin(h, cache, direction, start), direction, n - 1), direction);
    }
  }

  /** On a forest a call leaves only exact entries behind. */
  lemma ForestCallKeepsExact(h: Digraph, direction: Direction, cache: ReachCache, start: NodeId, after: ReachCache, reach: Reach)
    requires Valid(cache) && SoundCache(h, direction, cache) && ExactCache(h, direction, cache) && Forest(h, direction)
    requires Call(h, direction, cache, start, after, reach)
    ensures ExactCache(h, direction, after)
  {
    LookupKeeps(h, direction, cache, start);
    var (looked, found) := Lookup(cache, direction, start);
    hide Valid, Lookup, SoundCache, ExactCache, Steps, Forest;
    if found.None? {
      var n: nat :| Ends(h, direction, looked, start, after, reach, n);
      StepsGrown(h, looked, direction, start, n);
    }
  }

  lemma {:induction false} ForestCachesExact(h: Digraph, direction: Direction, capacity: int, caches: seq<ReachCache>, i: nat)
    requires Forest(h, direction) && CallRun(h, direction, capacity, caches) && i < |caches|
    ensures ExactCache(h, direction, caches[i])
    decreases i
  {
    hide ExactCache, CallNext, Valid, SoundCache, Forest;
    if i == 0 {
      NewCacheExact(h, direction, capacity);
    } else {
      ForestCachesExact(h, direction, capacity, caches, i - 1);
      RunSound(h, direction, capacity, caches, i - 1);
      var start, reach := CallOf(h, direction, caches[i - 1], caches[i]);
      ForestCallKeepsExact(h, direction, caches[i - 1], start, caches[i], reach);
    }
  }

  lemma NoWayBack(g: Digraph, cg: ComponentGraph, c: nat, d: nat)
    requires Condenses(g, cg) && d in Dag(cg).Adjacent(c, Outbound)
    ensures !Reaches(Dag(cg), Outbound, d, c)
  {
    hide Condenses, Dag, Digraph.Adjacent;
    if Reaches(Dag(cg), Outbound, d, c) {
      var n: nat :| Walk(Dag(cg), Outbound, d, c, n);
      assert Walk(Dag(cg), Outbound, c, c, n + 1);
      CondensationAcyclic(g, cg, c, n + 1);
    }
  }

  /** A component graph has no cycle, in either direction. */
  lemma CondensationHasNoCycle(g: Digraph, cg: ComponentGraph, direction: Direction)
    requires Condenses(g, cg) && direction != Both
    ensures Acyclic(Dag(cg), direction)
  {
    var h := Dag(cg);
    assert h.Valid();
    hide Condenses, Dag, Digraph.Valid, Digraph.Adjacent, Reaches;
    forall u, v | v in h.Adjacent(u, direction)
      ensures !Reaches(h, direction, v, u)
    {
      if direction == Outbound {
        NoWayBack(g, cg, u, v);
      } else {
        AdjacentReverse(h, direction, u, v);
        NoWayBack(g, cg, v, u);
        if Reaches(h, direction, v, u) {
          ReachesReverse(h, direction, v, u);
        }
      }
    }
  }

  /** Whatever the capacity, runs are exact when no component has two predecessors in the direction of travel. */
  lemma OnePredecessorExact(g: Digraph, cg: ComponentGraph, direction: Direction, capacity: int, caches: seq<ReachCache>)
    requires Condenses(g, cg) && OnePredecessor(Dag(cg), direction) && CallRun(Dag(cg), direction, capacity, caches)
    ensures RunExact(Dag(cg), direction, caches)
  {
    var h := Dag(cg);
    hide Condenses, Dag, CallRun, RunExact, Acyclic, OnePredecessor;
    if direction != Both {
      CondensationHasNoCycle(g, cg, direction);
      forall i | 0 <= i < |caches|
        ensures ExactCache(h, direction, caches[i])
      {
        ForestCachesExact(h, direction, capacity, caches, i);
      }
    }
    ExactRuns(h, direction, capacity, caches);
  }
}
