/** The memoising reach search of `ReachabilityCache`, as steps over a stack of cursors and a SIEVE cache. */
module ReachSearch {
  import opened Digraphs
  import opened Optional
  import opened SieveCache

  type Reach = set<NodeId>
  type ReachCache = Cache<NodeId, Reach>

  /** A component being explored; its ancestor is the cursor below it on the stack. */
  datatype ReachCursor = ReachCursor(component: NodeId, adjacent: seq<NodeId>, adjacentIdx: nat, reach: Reach)

  /** `result` is the root's bitmap once the root was popped. */
  datatype Search = Search(stack: seq<ReachCursor>, cache: ReachCache, result: Reach)

  function NewRootCursor(h: Digraph, direction: Direction, component: NodeId): ReachCursor {
    ReachCursor(component, h.Adjacent(component, direction), 0, {component})
  }

  /** A cursor below the root starts with its neighbours already in its bitmap. */
  function NewCursor(h: Digraph, direction: Direction, component: NodeId): ReachCursor {
    var adjacent := h.Adjacent(component, direction);
    ReachCursor(component, adjacent, 0, {component} + set x | x in adjacent)
  }

  /** Only the inbound and the outbound direction have a cache. */
  function Lookup(cache: ReachCache, direction: Direction, component: NodeId): (ReachCache, Option<Reach>) {
    if direction == Both then (cache, None) else AfterGet(cache, component)
  }

  ghost function Store(cache: ReachCache, direction: Direction, component: NodeId, reach: Reach): ReachCache
    requires Valid(cache)
  {
    if direction == Both then cache else AfterPut(cache, component, reach)
  }

  function Top(s: Search): ReachCursor
    requires s.stack != []
  {
    s.stack[|s.stack| - 1]
  }

  /** `Or` into the bitmap of cursor `i`. */
  function OrInto(stack: seq<ReachCursor>, i: nat, more: Reach): seq<ReachCursor>
    requires i < |stack|
  {
    stack[i := stack[i].(reach := stack[i].reach + more)]
  }

  /** The top cursor ran out of neighbours: pop it, roll its bitmap up, cache it. */
  ghost function Finish(s: Search, direction: Direction): Search
    requires s.stack != [] && Valid(s.cache)
  {
    var n, top := |s.stack|, Top(s);
    var stack := s.stack[..n - 1];
    Search(if n > 1 then OrInto(stack, n - 2, top.reach) else stack,
           Store(s.cache, direction, top.component, top.reach),
           if n > 1 then s.result else top.reach)
  }

  function Advance(s: Search): Search
    requires s.stack != []
  {
    s.(stack := s.stack[|s.stack| - 1 := Top(s).(adjacentIdx := Top(s).adjacentIdx + 1)])
  }

  /** The next neighbour of the top cursor; the root's bitmap doubles as the visited set. */
  ghost function Explore(h: Digraph, s: Search, direction: Direction): Search
    requires s.stack != [] && Top(s).adjacentIdx < |Top(s).adjacent|
  {
    var next := Top(s).adjacent[Top(s).adjacentIdx];
    var a := Advance(s);
    if next in a.stack[0].reach then a
    else
      var stack := OrInto(a.stack, 0, {next});
      var (cache, cached) := Lookup(s.cache, direction, next);
      if cached.Some?
      then Search(OrInto(stack, |stack| - 1, cached.value), cache, s.result)
      else Search(stack + [NewCursor(h, direction, next)], cache, s.result)
  }

  ghost function Step(h: Digraph, s: Search, direction: Direction): Search
    requires Valid(s.cache)
  {
    if s.stack == [] then s
    else if Top(s).adjacentIdx < |Top(s).adjacent| then Explore(h, s, direction)
    else Finish(s, direction)
  }

  ghost function Begin(h: Digraph, cache: ReachCache, direction: Direction, component: NodeId): Search {
    Search([NewRootCursor(h, direction, component)], cache, {})
  }

  lemma StepKeepsCacheValid(h: Digraph, s: Search, direction: Direction)
    requires Valid(s.cache)
    ensures Valid(Step(h, s, direction).cache)
  {
    if s.stack != [] {
      if Top(s).adjacentIdx < |Top(s).adjacent| {
        GetKeepsValid(s.cache, Top(s).adjacent[Top(s).adjacentIdx]);
      } else {
        PutKeepsValid(s.cache, Top(s).component, Top(s).reach);
      }
      hide Valid, AfterGet, AfterPut;
    }
  }

  /** The search after `n` steps. */
  ghost function Steps(h: Digraph, s: Search, direction: Direction, n: nat): (t: Search)
    requires Valid(s.cache)
    ensures Valid(t.cache)
    decreases n
  {
    if n == 0 then s
    else
      var t := Steps(h, s, direction, n - 1);
      StepKeepsCacheValid(h, t, direction);
      Step(h, t, direction)
  }

  // ----- Soundness: nothing unreachable is ever recorded -----

  /** An entry holds its component, the direct neighbours, and only components that are truly reachable. */
  ghost predicate SoundEntry(h: Digraph, direction: Direction, component: NodeId, reach: Reach) {
    && component in reach
    && (forall x :: x in h.Adjacent(component, direction) ==> x in reach)
    && (forall x :: x in reach ==> Reaches(h, direction, component, x))
  }

  /** The direction `Both` has no cache, so nothing is asked of one. */
  ghost predicate SoundCache(h: Digraph, direction: Direction, cache: ReachCache) {
    direction != Both ==> forall k :: k in cache.store ==> SoundEntry(h, direction, k, cache.store[k].value)
  }

  ghost predicate SoundCursor(h: Digraph, direction: Direction, c: ReachCursor) {
    && c.adjacent == h.Adjacent(c.component, direction)
    && c.adjacentIdx <= |c.adjacent|
    && c.component in c.reach
    && (forall x :: x in c.reach ==> Reaches(h, direction, c.component, x))
  }

  ghost predicate SoundCursors(h: Digraph, direction: Direction, stack: seq<ReachCursor>) {
    forall i :: 0 <= i < |stack| ==> SoundCursor(h, direction, stack[i])
  }

  /** Each cursor's component is reachable from the one below it. */
  ghost predicate Linked(h: Digraph, direction: Direction, stack: seq<ReachCursor>) {
    forall i, j :: 0 <= i < |stack| - 1 && j == i + 1 ==> Reaches(h, direction, stack[i].component, stack[j].component)
  }

  /** Cursors above the root hold their neighbours from the start. */
  ghost predicate Populated(stack: seq<ReachCursor>) {
    forall i, x :: 0 < i < |stack| && x in stack[i].adjacent ==> x in stack[i].reach
  }

  /** Neighbours a cursor has passed are in the root's bitmap. */
  ghost predicate PassedVisited(stack: seq<ReachCursor>) {
    forall i, k :: 0 <= i < |stack| && 0 <= k < stack[i].adjacentIdx && k < |stack[i].adjacent| ==> stack[i].adjacent[k] in stack[0].reach
  }

  ghost predicate SoundSearch(h: Digraph, direction: Direction, s: Search) {
    && Valid(s.cache)
    && SoundCache(h, direction, s.cache)
    && SoundStack(h, direction, s.stack)
  }

  lemma NewCursorSound(h: Digraph, direction: Direction, component: NodeId)
    ensures SoundCursor(h, direction, NewCursor(h, direction, component))
    ensures SoundCursor(h, direction, NewRootCursor(h, direction, component))
  {
    ReachesSelf(h, direction, component);
    forall x | x in h.Adjacent(component, direction)
      ensures Reaches(h, direction, component, x)
    {
      ReachesEdge(h, direction, component, x);
    }
  }

  lemma BeginSound(h: Digraph, cache: ReachCache, direction: Direction, component: NodeId)
    requires Valid(cache) && SoundCache(h, direction, cache)
    ensures SoundSearch(h, direction, Begin(h, cache, direction, component))
  {
    NewCursorSound(h, direction, component);
    hide Valid, Reaches, SoundCursor;
  }

  lemma OrIntoSound(h: Digraph, direction: Direction, stack: seq<ReachCursor>, i: nat, more: Reach)
    requires SoundCursors(h, direction, stack) && Linked(h, direction, stack) && Populated(stack) && PassedVisited(stack)
    requires i < |stack| && forall x :: x in more ==> Reaches(h, direction, stack[i].component, x)
    ensures var t := OrInto(stack, i, more);
            SoundCursors(h, direction, t) && Linked(h, direction, t) && Populated(t) && PassedVisited(t)
  {
    hide Reaches;
    var t := OrInto(stack, i, more);
    assert SoundCursor(h, direction, stack[i]);
    assert SoundCursors(h, direction, t);
  }

  /** A reachable bitmap of a higher cursor is reachable from every lower one. */
  lemma {:induction false} RootReaches(h: Digraph, direction: Direction, stack: seq<ReachCursor>, i: nat, x: NodeId)
    requires SoundCursors(h, direction, stack) && Linked(h, direction, stack)
    requires i < |stack| && Reaches(h, direction, stack[i].component, x)
    ensures Reaches(h, direction, stack[0].component, x)
    decreases i
  {
    hide Reaches;
    if i > 0 {
      ReachesTrans(h, direction, stack[i - 1].component, stack[i].component, x);
      RootReaches(h, direction, stack, i - 1, x);
    }
  }

  /** The four facts about a stack that every step keeps. */
  ghost predicate SoundStack(h: Digraph, direction: Direction, stack: seq<ReachCursor>) {
    SoundCursors(h, direction, stack) && Linked(h, direction, stack) && Populated(stack) && PassedVisited(stack)
  }

  lemma AdvanceCursors(h: Digraph, direction: Direction, s: Search)
    requires SoundCursors(h, direction, s.stack) && Linked(h, direction, s.stack) && s.stack != [] && Top(s).adjacentIdx < |Top(s).adjacent|
    ensures SoundCursors(h, direction, Advance(s).stack) && Linked(h, direction, Advance(s).stack)
  {
    hide Reaches;
    assert SoundCursor(h, direction, Top(s));
  }

  lemma AdvancePassed(s: Search)
    requires Populated(s.stack) && PassedVisited(s.stack) && s.stack != [] && Top(s).adjacentIdx < |Top(s).adjacent|
    requires Top(s).adjacent[Top(s).adjacentIdx] in s.stack[0].reach
    ensures Populated(Advance(s).stack) && PassedVisited(Advance(s).stack)
  {
    var t := Advance(s).stack;
    forall i, k | 0 <= i < |t| && 0 <= k < t[i].adjacentIdx && k < |t[i].adjacent|
      ensures t[i].adjacent[k] in t[0].reach
    {
      assert t[i].adjacent == s.stack[i].adjacent && t[0].reach == s.stack[0].reach;
      assert k < s.stack[i].adjacentIdx || (i == |t| - 1 && k == Top(s).adjacentIdx);
    }
  }

  lemma AdvanceSound(h: Digraph, direction: Direction, s: Search)
    requires SoundStack(h, direction, s.stack) && s.stack != [] && Top(s).adjacentIdx < |Top(s).adjacent|
    requires Top(s).adjacent[Top(s).adjacentIdx] in s.stack[0].reach
    ensures SoundStack(h, direction, Advance(s).stack)
  {
    hide SoundCursors, Linked, Populated, PassedVisited;
    AdvanceCursors(h, direction, s);
    AdvancePassed(s);
  }

  lemma PushLinked(h: Digraph, direction: Direction, stack: seq<ReachCursor>, c: ReachCursor)
    requires SoundCursors(h, direction, stack) && Linked(h, direction, stack) && SoundCursor(h, direction, c)
    requires stack != [] ==> Reaches(h, direction, stack[|stack| - 1].component, c.component)
    ensures SoundCursors(h, direction, stack + [c]) && Linked(h, direction, stack + [c])
  {
    hide Reaches, SoundCursor;
  }

  lemma PushVisited(stack: seq<ReachCursor>, c: ReachCursor)
    requires stack != [] && Populated(stack) && PassedVisited(stack) && c.adjacentIdx == 0
    requires forall x :: x in c.adjacent ==> x in c.reach
    ensures Populated(stack + [c]) && PassedVisited(stack + [c])
  {
  }

  lemma PushSound(h: Digraph, direction: Direction, s: Search, next: NodeId)
    requires SoundStack(h, direction, s.stack) && s.stack != [] && next in h.Adjacent(Top(s).component, direction)
    ensures SoundStack(h, direction, s.stack + [NewCursor(h, direction, next)])
  {
    hide Reaches, SoundCursors, Linked, Populated, PassedVisited, SoundCursor;
    NewCursorSound(h, direction, next);
    ReachesEdge(h, direction, Top(s).component, next);
    PushLinked(h, direction, s.stack, NewCursor(h, direction, next));
    PushVisited(s.stack, NewCursor(h, direction, next));
  }

  lemma VisitSound(h: Digraph, direction: Direction, s: Search, next: NodeId)
    requires SoundStack(h, direction, s.stack) && s.stack != [] && Top(s).adjacentIdx < |Top(s).adjacent|
    requires next == Top(s).adjacent[Top(s).adjacentIdx]
    ensures next in h.Adjacent(Top(s).component, direction)
    ensures SoundStack(h, direction, OrInto(Advance(s).stack, 0, {next}))
  {
    hide Reaches;
    assert SoundCursor(h, direction, Top(s));
    ReachesEdge(h, direction, Top(s).component, next);
    RootReaches(h, direction, s.stack, |s.stack| - 1, next);
    OrIntoSound(h, direction, s.stack, 0, {next});
    var u := s.(stack := OrInto(s.stack, 0, {next}));
    AdvanceSound(h, direction, u);
    assert Advance(u).stack == OrInto(Advance(s).stack, 0, {next});
  }

  lemma CachedSound(h: Digraph, direction: Direction, stack: seq<ReachCursor>, next: NodeId, cached: Reach)
    requires SoundStack(h, direction, stack) && stack != [] && SoundEntry(h, direction, next, cached)
    requires next in h.Adjacent(stack[|stack| - 1].component, direction)
    ensures SoundStack(h, direction, OrInto(stack, |stack| - 1, cached))
  {
    hide Reaches, SoundCursors, Linked, Populated, PassedVisited;
    var c := stack[|stack| - 1].component;
    forall x | x in cached
      ensures Reaches(h, direction, c, x)
    {
      ReachesEdge(h, direction, c, next);
      ReachesTrans(h, direction, c, next, x);
    }
    OrIntoSound(h, direction, stack, |stack| - 1, cached);
  }

  lemma LookupSound(h: Digraph, direction: Direction, cache: ReachCache, next: NodeId)
    requires Valid(cache) && SoundCache(h, direction, cache)
    ensures SoundCache(h, direction, Lookup(cache, direction, next).0)
    ensures Lookup(cache, direction, next).1.Some? ==> SoundEntry(h, direction, next, Lookup(cache, direction, next).1.value)
  {
    GetKeepsValid(cache, next);
  }

  lemma VisitTop(s: Search, next: NodeId)
    requires s.stack != []
    ensures var stack := OrInto(Advance(s).stack, 0, {next}); stack != [] && stack[|stack| - 1].component == Top(s).component
  {
  }

  lemma ExploreSound(h: Digraph, direction: Direction, s: Search)
    requires Valid(s.cache) && SoundCache(h, direction, s.cache) && SoundStack(h, direction, s.stack)
    requires s.stack != [] && Top(s).adjacentIdx < |Top(s).adjacent|
    ensures SoundCache(h, direction, Explore(h, s, direction).cache)
    ensures SoundStack(h, direction, Explore(h, s, direction).stack)
  {
    hide SoundStack, SoundCache, Valid, OrInto, Lookup;
    var next := Top(s).adjacent[Top(s).adjacentIdx];
    LookupSound(h, direction, s.cache, next);
    if next in Advance(s).stack[0].reach {
      AdvanceSound(h, direction, s);
    } else {
      VisitSound(h, direction, s, next);
      var stack := OrInto(Advance(s).stack, 0, {next});
      VisitTop(s, next);
      var (cache, cached) := Lookup(s.cache, direction, next);
      if cached.Some? {
        CachedSound(h, direction, stack, next, cached.value);
      } else {
        PushSound(h, direction, s.(stack := stack), next);
      }
    }
  }

  lemma TopEntrySound(h: Digraph, direction: Direction, s: Search)
    requires SoundStack(h, direction, s.stack) && s.stack != [] && Top(s).adjacentIdx >= |Top(s).adjacent|
    ensures SoundEntry(h, direction, Top(s).component, Top(s).reach)
  {
    hide Reaches;
    assert SoundCursor(h, direction, Top(s));
    forall x | x in Top(s).adjacent
      ensures x in Top(s).reach
    {
      if |s.stack| == 1 {
        var k :| 0 <= k < |Top(s).adjacent| && Top(s).adjacent[k] == x;
      }
    }
  }

  lemma PopSound(h: Digraph, direction: Direction, stack: seq<ReachCursor>)
    requires SoundStack(h, direction, stack) && stack != []
    ensures SoundStack(h, direction, stack[..|stack| - 1])
  {
    hide Reaches, SoundCursor;
    var t := stack[..|stack| - 1];
    assert forall i :: 0 <= i < |t| ==> t[i] == stack[i];
    assert SoundCursors(h, direction, t);
    assert Linked(h, direction, t);
    assert Populated(t);
    assert PassedVisited(t);
  }

  lemma TopFacts(h: Digraph, direction: Direction, stack: seq<ReachCursor>, c: NodeId, top: ReachCursor)
    requires SoundStack(h, direction, stack) && |stack| > 1 && c == stack[|stack| - 2].component && top == stack[|stack| - 1]
    ensures Reaches(h, direction, c, top.component) && forall x :: x in top.reach ==> Reaches(h, direction, top.component, x)
  {
    hide Reaches, Populated, PassedVisited;
    assert SoundCursor(h, direction, top);
  }

  lemma RollUpSound(h: Digraph, direction: Direction, stack: seq<ReachCursor>)
    requires SoundStack(h, direction, stack) && |stack| > 1
    ensures SoundStack(h, direction, OrInto(stack[..|stack| - 1], |stack| - 2, stack[|stack| - 1].reach))
  {
    hide SoundCursors, Linked, Populated, PassedVisited, Reaches;
    var n := |stack|;
    var c, top := stack[n - 2].component, stack[n - 1];
    TopFacts(h, direction, stack, c, top);
    PopSound(h, direction, stack);
    forall x | x in top.reach
      ensures Reaches(h, direction, c, x)
    {
      ReachesTrans(h, direction, c, top.component, x);
    }
    OrIntoSound(h, direction, stack[..n - 1], n - 2, top.reach);
  }

  lemma StoreSound(h: Digraph, direction: Direction, cache: ReachCache, component: NodeId, reach: Reach)
    requires Valid(cache) && SoundCache(h, direction, cache) && SoundEntry(h, direction, component, reach)
    ensures SoundCache(h, direction, Store(cache, direction, component, reach))
  {
    PutKeepsValid(cache, component, reach);
    hide Valid, AfterPut, SoundEntry;
  }

  lemma FinishSound(h: Digraph, direction: Direction, s: Search)
    requires Valid(s.cache) && SoundCache(h, direction, s.cache) && SoundStack(h, direction, s.stack)
    requires s.stack != [] && Top(s).adjacentIdx >= |Top(s).adjacent|
    ensures SoundCache(h, direction, Finish(s, direction).cache)
    ensures SoundStack(h, direction, Finish(s, direction).stack)
  {
    hide SoundStack, SoundEntry, SoundCache, Valid, Store;
    TopEntrySound(h, direction, s);
    StoreSound(h, direction, s.cache, Top(s).component, Top(s).reach);
    PopSound(h, direction, s.stack);
    if |s.stack| > 1 {
      RollUpSound(h, direction, s.stack);
    }
  }

  lemma StepSound(h: Digraph, s: Search, direction: Direction)
    requires SoundSearch(h, direction, s)
    ensures SoundSearch(h, direction, Step(h, s, direction))
  {
    hide SoundStack, SoundCache, Valid, Explore, Finish;
    StepKeepsCacheValid(h, s, direction);
    if s.stack != [] {
      if Top(s).adjacentIdx < |Top(s).adjacent| {
        ExploreSound(h, direction, s);
      } else {
        FinishSound(h, direction, s);
      }
    }
  }

  // ----- Exactness: nothing reachable is missed when the cache told the truth -----

  ghost predicate ExactEntry(h: Digraph, direction: Direction, component: NodeId, reach: Reach) {
    forall x :: x in reach <==> Reaches(h, direction, component, x)
  }

  ghost predicate ExactCache(h: Digraph, direction: Direction, cache: ReachCache) {
    direction != Both ==> forall k :: k in cache.store ==> ExactEntry(h, direction, k, cache.store[k].value)
  }

  ghost predicate InSome(stack: seq<ReachCursor>, x: NodeId) {
    exists i :: 0 <= i < |stack| && x in stack[i].reach
  }

  ghost predicate OnStack(stack: seq<ReachCursor>, x: NodeId) {
    exists i :: 0 <= i < |stack| && stack[i].component == x
  }

  /** Every neighbour of `x` is recorded in some open bitmap. */
  ghost predicate ClosedIn(h: Digraph, direction: Direction, stack: seq<ReachCursor>, x: NodeId) {
    forall y :: y in h.Adjacent(x, direction) ==> InSome(stack, y)
  }

  ghost predicate PendingAt(stack: seq<ReachCursor>, x: NodeId, i: nat, k: nat) {
    0 < i < |stack| && stack[i].adjacentIdx <= k < |stack[i].adjacent| && stack[i].adjacent[k] == x
  }

  /** `x` was recorded ahead of time by a cursor above the root and is still to be tried. */
  ghost predicate Pending(stack: seq<ReachCursor>, x: NodeId) {
    exists i: nat, k: nat :: PendingAt(stack, x, i, k)
  }

  ghost predicate Handled(h: Digraph, direction: Direction, stack: seq<ReachCursor>, x: NodeId) {
    OnStack(stack, x) || ClosedIn(h, direction, stack, x)
  }

  /** Visited components are open or closed; recorded ones may also be visited or pending. */
  ghost predicate Complete(h: Digraph, direction: Direction, stack: seq<ReachCursor>) {
    && stack != []
    && (forall x :: x in stack[0].reach ==> Handled(h, direction, stack, x))
    && (forall x :: InSome(stack, x) ==> x in stack[0].reach || Handled(h, direction, stack, x) || Pending(stack, x))
  }

  ghost predicate Visited(stack: seq<ReachCursor>) {
    forall i :: 0 <= i < |stack| ==> stack[i].component in stack[0].reach
  }

  /** Entries the search may still consult are exact: the others belong to components it has visited. */
  ghost predicate Trusted(h: Digraph, direction: Direction, visited: Reach, cache: ReachCache) {
    forall k :: k in cache.store ==> k in visited || ExactEntry(h, direction, k, cache.store[k].value)
  }

  /** `t` keeps the cursors of `s`, with bitmaps at least as large and cursors at most moved past `passed`. */
  ghost predicate Grows(s: seq<ReachCursor>, t: seq<ReachCursor>, passed: NodeId) {
    && |s| <= |t|
    && (forall i :: 0 <= i < |s| ==> s[i].component == t[i].component && s[i].reach <= t[i].reach && s[i].adjacent == t[i].adjacent)
    && (forall i, k :: 0 <= i < |s| && s[i].adjacentIdx <= k < |s[i].adjacent| && s[i].adjacent[k] != passed ==> t[i].adjacentIdx <= k)
  }

  lemma GrowsInSome(s: seq<ReachCursor>, t: seq<ReachCursor>, passed: NodeId, x: NodeId)
    requires Grows(s, t, passed) && InSome(s, x)
    ensures InSome(t, x)
  {
    var i :| 0 <= i < |s| && x in s[i].reach;
    assert x in t[i].reach;
  }

  lemma GrowsHandled(h: Digraph, direction: Direction, s: seq<ReachCursor>, t: seq<ReachCursor>, passed: NodeId, x: NodeId)
    requires Grows(s, t, passed) && Handled(h, direction, s, x)
    ensures Handled(h, direction, t, x)
  {
    if OnStack(s, x) {
      var i :| 0 <= i < |s| && s[i].component == x;
      assert t[i].component == x;
    } else {
      forall y | y in h.Adjacent(x, direction)
        ensures InSome(t, y)
      {
        GrowsInSome(s, t, passed, y);
      }
    }
  }

  lemma GrowsPending(s: seq<ReachCursor>, t: seq<ReachCursor>, passed: NodeId, x: NodeId)
    requires Grows(s, t, passed) && Pending(s, x) && x != passed
    ensures Pending(t, x)
  {
    var i: nat, k: nat :| PendingAt(s, x, i, k);
    assert PendingAt(t, x, i, k);
  }

  /** Growing keeps `Complete` when everything new is handled, visited or pending, and `passed` is visited. */
  lemma GrowsComplete(h: Digraph, direction: Direction, s: seq<ReachCursor>, t: seq<ReachCursor>, passed: NodeId)
    requires Complete(h, direction, s) && Grows(s, t, passed) && passed in t[0].reach
    requires forall x :: x in t[0].reach && x !in s[0].reach ==> Handled(h, direction, t, x)
    requires forall x :: InSome(t, x) && !InSome(s, x) ==> x in t[0].reach || Handled(h, direction, t, x) || Pending(t, x)
    ensures Complete(h, direction, t)
  {
    hide Grows, Handled, Pending, InSome;
    GrowsRoot(s, t, passed);
    forall x | x in t[0].reach
      ensures Handled(h, direction, t, x)
    {
      if x in s[0].reach {
        GrowsHandled(h, direction, s, t, passed, x);
      }
    }
    forall x | InSome(t, x) && x !in t[0].reach
      ensures Handled(h, direction, t, x) || Pending(t, x)
    {
      if InSome(s, x) {
        if Handled(h, direction, s, x) {
          GrowsHandled(h, direction, s, t, passed, x);
        } else {
          GrowsPending(s, t, passed, x);
        }
      }
    }
  }

  lemma GrowsRoot(s: seq<ReachCursor>, t: seq<ReachCursor>, passed: NodeId)
    requires Grows(s, t, passed) && s != []
    ensures t != [] && s[0].reach <= t[0].reach
  {
  }

  /** Everything in an exact entry is closed once the entry is recorded. */
  lemma EntryHandled(h: Digraph, direction: Direction, stack: seq<ReachCursor>, k: NodeId, reach: Reach, x: NodeId)
    requires ExactEntry(h, direction, k, reach) && x in reach && forall y :: y in reach ==> InSome(stack, y)
    ensures Handled(h, direction, stack, x)
  {
    hide InSome, Reaches;
    forall y | y in h.Adjacent(x, direction)
      ensures InSome(stack, y)
    {
      ReachesThenEdge(h, direction, k, x, y);
    }
  }

  lemma SkipComplete(h: Digraph, direction: Direction, s: Search)
    requires s.stack != [] && Complete(h, direction, s.stack) && Top(s).adjacentIdx < |Top(s).adjacent|
    requires Top(s).adjacent[Top(s).adjacentIdx] in s.stack[0].reach
    ensures Complete(h, direction, Advance(s).stack)
  {
    var t, next := Advance(s).stack, Top(s).adjacent[Top(s).adjacentIdx];
    assert Grows(s.stack, t, next);
    assert forall x :: InSome(t, x) ==> InSome(s.stack, x);
    hide Complete, Grows;
    GrowsComplete(h, direction, s.stack, t, next);
  }

  lemma CachedComplete(h: Digraph, direction: Direction, s: Search, next: NodeId, cached: Reach)
    requires s.stack != [] && Complete(h, direction, s.stack) && Top(s).adjacentIdx < |Top(s).adjacent|
    requires next == Top(s).adjacent[Top(s).adjacentIdx] && ExactEntry(h, direction, next, cached)
    ensures Complete(h, direction, OrInto(OrInto(Advance(s).stack, 0, {next}), |s.stack| - 1, cached))
  {
    var t := OrInto(OrInto(Advance(s).stack, 0, {next}), |s.stack| - 1, cached);
    assert Grows(s.stack, t, next);
    ReachesSelf(h, direction, next);
    assert forall y :: y in cached ==> y in t[|s.stack| - 1].reach;
    assert forall x :: x in t[0].reach ==> x in s.stack[0].reach || x in cached;
    assert forall x :: InSome(t, x) ==> InSome(s.stack, x) || x in cached;
    assert forall y :: y in cached ==> InSome(t, y);
    hide Complete, Grows, InSome, Reaches, Handled, Pending;
    forall x | x in cached
      ensures Handled(h, direction, t, x)
    {
      EntryHandled(h, direction, t, next, cached, x);
    }
    GrowsComplete(h, direction, s.stack, t, next);
  }

  lemma PushComplete(h: Digraph, direction: Direction, s: Search, next: NodeId)
    requires s.stack != [] && Complete(h, direction, s.stack) && Top(s).adjacentIdx < |Top(s).adjacent|
    requires next == Top(s).adjacent[Top(s).adjacentIdx]
    ensures Complete(h, direction, OrInto(Advance(s).stack, 0, {next}) + [NewCursor(h, direction, next)])
  {
    var n := |s.stack|;
    var c := NewCursor(h, direction, next);
    var t := OrInto(Advance(s).stack, 0, {next}) + [c];
    assert Grows(s.stack, t, next);
    assert t[n] == c;
    assert forall x :: x in t[0].reach ==> x in s.stack[0].reach || x == next;
    assert forall x :: InSome(t, x) ==> InSome(s.stack, x) || x == next || x in c.adjacent;
    forall x | x in c.adjacent
      ensures Pending(t, x)
    {
      var k :| 0 <= k < |c.adjacent| && c.adjacent[k] == x;
      assert PendingAt(t, x, n, k);
    }
    assert OnStack(t, next);
    hide Complete, Grows, InSome, Pending, OnStack;
    GrowsComplete(h, direction, s.stack, t, next);
  }

  /** The stack after popping an exhausted cursor above the root. */
  function RolledUp(stack: seq<ReachCursor>): seq<ReachCursor>
    requires |stack| > 1
  {
    OrInto(stack[..|stack| - 1], |stack| - 2, stack[|stack| - 1].reach)
  }

  lemma RolledUpInSome(stack: seq<ReachCursor>, x: NodeId)
    requires |stack| > 1
    ensures InSome(RolledUp(stack), x) <==> InSome(stack, x)
  {
    var n, t := |stack|, RolledUp(stack);
    if InSome(stack, x) {
      var i :| 0 <= i < n && x in stack[i].reach;
      assert x in t[if i == n - 1 then n - 2 else i].reach;
    }
    if InSome(t, x) {
      var i :| 0 <= i < n - 1 && x in t[i].reach;
      assert x in stack[i].reach || x in stack[n - 1].reach;
    }
  }

  /** An exhausted cursor's neighbours are all visited. */
  lemma ExhaustedVisited(h: Digraph, direction: Direction, stack: seq<ReachCursor>, y: NodeId)
    requires stack != [] && SoundStack(h, direction, stack) && stack[|stack| - 1].adjacentIdx >= |stack[|stack| - 1].adjacent|
    requires y in h.Adjacent(stack[|stack| - 1].component, direction)
    ensures InSome(stack, y)
  {
    hide Reaches;
    var top := stack[|stack| - 1];
    assert SoundCursor(h, direction, top);
    var k :| 0 <= k < |top.adjacent| && top.adjacent[k] == y;
    assert y in stack[0].reach;
  }

  lemma RolledUpComponents(stack: seq<ReachCursor>, i: nat)
    requires |stack| > 1 && i < |stack| - 1
    ensures |RolledUp(stack)| == |stack| - 1 && RolledUp(stack)[i].component == stack[i].component
  {
  }

  lemma RolledUpHandled(h: Digraph, direction: Direction, stack: seq<ReachCursor>, x: NodeId)
    requires |stack| > 1 && SoundStack(h, direction, stack) && Handled(h, direction, stack, x)
    requires stack[|stack| - 1].adjacentIdx >= |stack[|stack| - 1].adjacent|
    ensures Handled(h, direction, RolledUp(stack), x)
  {
    hide SoundStack, RolledUp, InSome;
    var n, t := |stack|, RolledUp(stack);
    if i :| 0 <= i < n - 1 && stack[i].component == x {
      RolledUpComponents(stack, i);
    } else {
      forall y | y in h.Adjacent(x, direction)
        ensures InSome(t, y)
      {
        if stack[n - 1].component == x {
          ExhaustedVisited(h, direction, stack, y);
        }
        RolledUpInSome(stack, y);
      }
    }
  }

  lemma RolledUpPending(stack: seq<ReachCursor>, x: NodeId)
    requires |stack| > 1 && Pending(stack, x) && stack[|stack| - 1].adjacentIdx >= |stack[|stack| - 1].adjacent|
    ensures |stack| > 2 && Pending(RolledUp(stack), x)
  {
    var i: nat, k: nat :| PendingAt(stack, x, i, k);
    assert PendingAt(RolledUp(stack), x, i, k);
  }

  lemma FinishComplete(h: Digraph, direction: Direction, stack: seq<ReachCursor>)
    requires |stack| > 1 && SoundStack(h, direction, stack) && Complete(h, direction, stack)
    requires stack[|stack| - 1].adjacentIdx >= |stack[|stack| - 1].adjacent|
    ensures Complete(h, direction, RolledUp(stack))
  {
    var t := RolledUp(stack);
    assert t != [] && stack[0].reach <= t[0].reach;
    assert |stack| > 2 ==> t[0].reach == stack[0].reach;
    assert forall x :: x in t[0].reach ==> InSome(t, x);
    hide SoundStack, Handled, Pending, InSome, RolledUp;
    forall x | InSome(t, x)
      ensures Handled(h, direction, t, x) || (|stack| > 2 && (x in t[0].reach || Pending(t, x)))
      ensures x in t[0].reach ==> Handled(h, direction, t, x)
    {
      RolledUpInSome(stack, x);
      if Handled(h, direction, stack, x) {
        RolledUpHandled(h, direction, stack, x);
      } else if x !in stack[0].reach {
        RolledUpPending(stack, x);
      }
    }
  }

  /** When only the exhausted root is left, its bitmap is closed. */
  lemma RootClosed(h: Digraph, direction: Direction, stack: seq<ReachCursor>)
    requires |stack| == 1 && SoundStack(h, direction, stack) && Complete(h, direction, stack)
    requires stack[0].adjacentIdx >= |stack[0].adjacent|
    ensures ExactEntry(h, direction, stack[0].component, stack[0].reach)
  {
    var root := stack[0];
    assert SoundCursor(h, direction, root);
    forall x, y | x in root.reach && y in h.Adjacent(x, direction)
      ensures y in root.reach
    {
      assert Handled(h, direction, stack, x);
      if OnStack(stack, x) {
        var k :| 0 <= k < |root.adjacent| && root.adjacent[k] == y;
      } else {
        assert InSome(stack, y);
      }
    }
    hide Reaches, SoundStack, Complete;
    forall x | Reaches(h, direction, root.component, x)
      ensures x in root.reach
    {
      ClosedReaches(h, direction, root.reach, root.component, x);
    }
  }

  // ----- One search, from its first step to its last -----

  /** Everything recorded so far is true of `start`. */
  ghost predicate SoundRun(h: Digraph, direction: Direction, start: NodeId, s: Search) {
    && SoundSearch(h, direction, s)
    && (s.stack != [] ==> s.stack[0].component == start)
    && (s.stack == [] ==> SoundEntry(h, direction, start, s.result))
  }

  /** Nothing will be missed. */
  ghost predicate ExactRun(h: Digraph, direction: Direction, start: NodeId, s: Search) {
    && (s.stack != [] ==> Complete(h, direction, s.stack) && Visited(s.stack)
                          && (direction != Both ==> Trusted(h, direction, s.stack[0].reach, s.cache)))
    && (s.stack == [] ==> ExactEntry(h, direction, start, s.result))
  }

  lemma BeginRun(h: Digraph, cache: ReachCache, direction: Direction, start: NodeId)
    requires Valid(cache) && SoundCache(h, direction, cache)
    ensures SoundRun(h, direction, start, Begin(h, cache, direction, start))
    ensures ExactCache(h, direction, cache) ==> ExactRun(h, direction, start, Begin(h, cache, direction, start))
  {
    hide Valid, SoundStack, SoundCache, ExactEntry;
    BeginSound(h, cache, direction, start);
    var stack := Begin(h, cache, direction, start).stack;
    assert stack[0].component == start;
    assert forall x :: InSome(stack, x) ==> x == start;
  }

  lemma StepSoundRun(h: Digraph, s: Search, direction: Direction, start: NodeId)
    requires SoundRun(h, direction, start, s)
    ensures SoundRun(h, direction, start, Step(h, s, direction))
  {
    hide SoundSearch, SoundEntry, Step, SoundStack, SoundCache, Valid;
    StepSound(h, s, direction);
    SearchFacts(h, s, direction);
    StepRoot(h, s, direction);
    if |s.stack| == 1 && Top(s).adjacentIdx >= |Top(s).adjacent| {
      TopEntrySound(h, direction, s);
    }
  }

  /** A step keeps the root, or pops it and returns its bitmap. */
  lemma StepRoot(h: Digraph, s: Search, direction: Direction)
    requires Valid(s.cache)
    ensures var t := Step(h, s, direction);
            && (t.stack != [] ==> s.stack != [] && t.stack[0].component == s.stack[0].component)
            && (t.stack == [] && s.stack != [] ==> |s.stack| == 1 && Top(s).adjacentIdx >= |Top(s).adjacent| && t.result == Top(s).reach)
            && (s.stack == [] ==> t == s)
  {
    hide Valid, Lookup, Store, NewCursor;
  }

  lemma SearchFacts(h: Digraph, s: Search, direction: Direction)
    requires SoundSearch(h, direction, s)
    ensures Valid(s.cache) && SoundCache(h, direction, s.cache) && SoundStack(h, direction, s.stack)
  {
  }

  lemma LookupTrusted(h: Digraph, direction: Direction, visited: Reach, more: Reach, cache: ReachCache, k: NodeId)
    requires Valid(cache) && Trusted(h, direction, visited, cache) && visited <= more
    ensures Trusted(h, direction, more, Lookup(cache, direction, k).0)
    ensures k !in visited && direction != Both && Lookup(cache, direction, k).1.Some? ==> ExactEntry(h, direction, k, Lookup(cache, direction, k).1.value)
  {
    GetKeepsValid(cache, k);
    hide Valid, ExactEntry;
  }

  lemma StoreTrusted(h: Digraph, direction: Direction, visited: Reach, more: Reach, cache: ReachCache, k: NodeId, reach: Reach)
    requires Valid(cache) && Trusted(h, direction, visited, cache) && visited <= more && k in more
    ensures Trusted(h, direction, more, Store(cache, direction, k, reach))
  {
    PutKeepsValid(cache, k, reach);
    hide Valid, AfterPut, ExactEntry;
  }

  lemma ExploreExact(h: Digraph, s: Search, direction: Direction, start: NodeId)
    requires Valid(s.cache) && s.stack != [] && Top(s).adjacentIdx < |Top(s).adjacent| && ExactRun(h, direction, start, s)
    ensures ExactRun(h, direction, start, Explore(h, s, direction))
  {
    hide Valid, Complete, Trusted, ExactEntry, Lookup;
    var next := Top(s).adjacent[Top(s).adjacentIdx];
    var a := Advance(s).stack;
    if next in s.stack[0].reach {
      SkipComplete(h, direction, s);
    } else {
      var visited := s.stack[0].reach + {next};
      if direction != Both {
        LookupTrusted(h, direction, s.stack[0].reach, visited, s.cache, next);
      }
      var (cache, cached) := Lookup(s.cache, direction, next);
      if cached.Some? {
        BothUncached(s.cache, direction, next);
        CachedComplete(h, direction, s, next, cached.value);
        var t := Explore(h, s, direction).stack;
        TrustedMonotone(h, direction, visited, t[0].reach, cache);
      } else {
        PushComplete(h, direction, s, next);
      }
    }
  }

  lemma BothUncached(cache: ReachCache, direction: Direction, k: NodeId)
    ensures Lookup(cache, direction, k).1.Some? ==> direction != Both
  {
  }

  lemma TrustedMonotone(h: Digraph, direction: Direction, visited: Reach, more: Reach, cache: ReachCache)
    requires Trusted(h, direction, visited, cache) && visited <= more
    ensures Trusted(h, direction, more, cache)
  {
    hide ExactEntry;
  }

  lemma FinishExact(h: Digraph, s: Search, direction: Direction, start: NodeId)
    requires SoundRun(h, direction, start, s) && s.stack != [] && Top(s).adjacentIdx >= |Top(s).adjacent| && ExactRun(h, direction, start, s)
    ensures ExactRun(h, direction, start, Finish(s, direction))
  {
    hide Valid, Complete, Trusted, ExactEntry, Store, SoundSearch;
    SearchFacts(h, s, direction);
    if |s.stack| == 1 {
      RootClosed(h, direction, s.stack);
    } else {
      FinishComplete(h, direction, s.stack);
      var t := Finish(s, direction).stack;
      assert t == RolledUp(s.stack);
      if direction != Both {
        StoreTrusted(h, direction, s.stack[0].reach, t[0].reach, s.cache, Top(s).component, Top(s).reach);
      }
    }
  }

  lemma StepExactRun(h: Digraph, s: Search, direction: Direction, start: NodeId)
    requires SoundRun(h, direction, start, s) && ExactRun(h, direction, start, s)
    ensures ExactRun(h, direction, start, Step(h, s, direction))
  {
    hide ExactRun, SoundSearch, Explore, Finish;
    SearchFacts(h, s, direction);
    if s.stack != [] {
      if Top(s).adjacentIdx < |Top(s).adjacent| {
        ExploreExact(h, s, direction, start);
      } else {
        FinishExact(h, s, direction, start);
      }
    }
  }

  lemma {:induction false} StepsRun(h: Digraph, cache: ReachCache, direction: Direction, start: NodeId, n: nat)
    requires Valid(cache) && SoundCache(h, direction, cache)
    ensures SoundRun(h, direction, start, Steps(h, Begin(h, cache, direction, start), direction, n))
    ensures ExactCache(h, direction, cache)
            ==> ExactRun(h, direction, start, Steps(h, Begin(h, cache, direction, start), direction, n))
    decreases n
  {
    hide Valid, SoundCache, ExactCache, SoundRun, ExactRun, Step;
    if n == 0 {
      BeginRun(h, cache, direction, start);
    } else {
      StepsRun(h, cache, direction, start, n - 1);
      var s := Steps(h, Begin(h, cache, direction, start), direction, n - 1);
      StepSoundRun(h, s, direction, start);
      if ExactCache(h, direction, cache) {
        StepExactRun(h, s, direction, start);
      }
    }
  }
}
