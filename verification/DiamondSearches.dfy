/** One search of a diamond, step by step: two ways lead from its top to its middle, and one on from there. */
module DiamondSearches {
  import opened Digraphs
  import opened Optional
  import opened SieveCache
  import opened ReachSearch
  import opened ReachCalls

  /** Top, left, right, middle and lowest corner. */
  datatype Corners = Corners(t: NodeId, l: NodeId, r: NodeId, m: NodeId, z: NodeId)

  predicate Apart(d: Corners) {
    d.t !in {d.l, d.r, d.m, d.z} && d.l !in {d.r, d.m, d.z} && d.r !in {d.m, d.z} && d.m != d.z
  }

  lemma ShapedApart(h: Digraph, d: Corners)
    requires Shaped(h, d)
    ensures Apart(d)
  {
  }

  /** The top leads to the left and then to the right corner, both lead to the middle, and that to the lowest. */
  ghost predicate Shaped(h: Digraph, d: Corners) {
    && Apart(d)
    && h.Adjacent(d.t, Outbound) == [d.l, d.r]
    && h.Adjacent(d.l, Outbound) == [d.m] && h.Adjacent(d.r, Outbound) == [d.m]
    && h.Adjacent(d.m, Outbound) == [d.z] && h.Adjacent(d.z, Outbound) == []
  }

  /** The search has this stack, and has stored only what it `popped`, in a cache nobody has asked yet. */
  ghost predicate At(s: Search, stack: seq<ReachCursor>, popped: set<NodeId>) {
    s.stack == stack && Valid(s.cache) && Untouched(s.cache) && s.cache.capacity > 1 && s.cache.store.Keys <= popped
  }

  /** The newest entry of the cache. */
  ghost predicate Newest(cache: ReachCache, k: NodeId, reach: Reach) {
    cache.queue != [] && cache.queue[0] == k && k in cache.store && cache.store[k].value == reach
  }

  ghost predicate Fresh(cache: ReachCache) {
    Valid(cache) && Untouched(cache) && cache.store == map[] && cache.capacity > 1
  }

  ghost function After(h: Digraph, d: Corners, cache: ReachCache, n: nat): Search
    requires Valid(cache)
  {
    Steps(h, Begin(h, cache, Outbound, d.t), Outbound, n)
  }

  /** The cursors of the diamond, with their neighbours. */
  function C(h: Digraph, component: NodeId, idx: nat, reach: Reach): ReachCursor {
    ReachCursor(component, h.Adjacent(component, Outbound), idx, reach)
  }

  lemma DiamondCursors(h: Digraph, d: Corners)
    requires Shaped(h, d)
    ensures NewRootCursor(h, Outbound, d.t) == C(h, d.t, 0, {d.t})
    ensures NewCursor(h, Outbound, d.l) == C(h, d.l, 0, {d.l, d.m})
    ensures NewCursor(h, Outbound, d.r) == C(h, d.r, 0, {d.r, d.m})
    ensures NewCursor(h, Outbound, d.m) == C(h, d.m, 0, {d.m, d.z})
    ensures NewCursor(h, Outbound, d.z) == C(h, d.z, 0, {d.z})
    ensures C(h, d.t, 0, {}).adjacent == [d.l, d.r] && C(h, d.l, 0, {}).adjacent == [d.m] && C(h, d.r, 0, {}).adjacent == [d.m]
    ensures C(h, d.m, 0, {}).adjacent == [d.z] && C(h, d.z, 0, {}).adjacent == []
  {
    assert (set x | x in [d.m]) == {d.m} && (set x | x in [d.z]) == {d.z};
  }

  lemma ExplorePushes(h: Digraph, s: Search, stack: seq<ReachCursor>, popped: set<NodeId>, next: NodeId)
    requires At(s, stack, popped) && stack != [] && Top(s).adjacentIdx < |Top(s).adjacent|
    requires next == Top(s).adjacent[Top(s).adjacentIdx] && next !in popped && next !in stack[0].reach
    ensures At(Step(h, s, Outbound), OrInto(Advance(s).stack, 0, {next}) + [NewCursor(h, Outbound, next)], popped)
  {
    assert next !in s.cache.store;
  }

  /** One step that descends into `next`. */
  lemma DiamondPush(h: Digraph, d: Corners, cache: ReachCache, n: nat, stack: seq<ReachCursor>, popped: set<NodeId>, next: NodeId, after: seq<ReachCursor>)
    requires Valid(cache) && At(After(h, d, cache, n), stack, popped) && stack != []
    requires var top := stack[|stack| - 1]; top.adjacentIdx < |top.adjacent| && next == top.adjacent[top.adjacentIdx]
    requires next !in popped && next !in stack[0].reach
    requires after == OrInto(Advance(Search(stack, NewCache(1), {})).stack, 0, {next}) + [NewCursor(h, Outbound, next)]
    ensures At(After(h, d, cache, n + 1), after, popped)
  {
    hide Shaped, Valid, Untouched, Step;
    StepsNext(h, After(h, d, cache, 0), Outbound, n);
    ExplorePushes(h, After(h, d, cache, n), stack, popped, next);
  }

  /** One step that finds its next component visited. */
  lemma DiamondSkip(h: Digraph, d: Corners, cache: ReachCache, n: nat, stack: seq<ReachCursor>, popped: set<NodeId>, next: NodeId, after: seq<ReachCursor>)
    requires Valid(cache) && At(After(h, d, cache, n), stack, popped) && stack != []
    requires var top := stack[|stack| - 1]; top.adjacentIdx < |top.adjacent| && next == top.adjacent[top.adjacentIdx]
    requires next in stack[0].reach && after == Advance(Search(stack, NewCache(1), {})).stack
    ensures At(After(h, d, cache, n + 1), after, popped)
  {
    hide Valid, Untouched, Shaped;
    StepsNext(h, After(h, d, cache, 0), Outbound, n);
  }

  lemma PutNewest(cache: ReachCache, popped: set<NodeId>, k: NodeId, reach: Reach)
    requires Valid(cache) && Untouched(cache) && cache.capacity > 1 && cache.store.Keys <= popped && k !in popped
    ensures var t := AfterPut(cache, k, reach);
            Valid(t) && Untouched(t) && t.capacity > 1 && t.store.Keys <= popped + {k} && Newest(t, k, reach)
  {
    PutKeepsValid(cache, k, reach);
    PutKeepsCapacity(cache, k, reach);
    PutSparesNewest(cache, k, reach);
    hide Valid, Untouched, AfterPut;
  }

  /** One step that pops and caches its top cursor. */
  lemma DiamondPop(h: Digraph, d: Corners, cache: ReachCache, n: nat, stack: seq<ReachCursor>, popped: set<NodeId>, after: seq<ReachCursor>)
    requires Valid(cache) && At(After(h, d, cache, n), stack, popped) && |stack| > 1
    requires var top := stack[|stack| - 1]; top.adjacentIdx >= |top.adjacent| && top.component !in popped
    requires after == RolledUp(stack)
    ensures At(After(h, d, cache, n + 1), after, popped + {stack[|stack| - 1].component})
    ensures Newest(After(h, d, cache, n + 1).cache, stack[|stack| - 1].component, stack[|stack| - 1].reach)
  {
    hide Valid, Untouched, AfterPut, Newest, Shaped;
    var s := After(h, d, cache, n);
    StepsNext(h, After(h, d, cache, 0), Outbound, n);
    PutNewest(s.cache, popped, Top(s).component, Top(s).reach);
  }

  lemma PushSingle(a: ReachCursor, next: NodeId, c: ReachCursor)
    ensures OrInto(Advance(Search([a], NewCache(1), {})).stack, 0, {next}) + [c]
            == [a.(adjacentIdx := a.adjacentIdx + 1, reach := a.reach + {next}), c]
  {
  }

  lemma PushDouble(a: ReachCursor, b: ReachCursor, next: NodeId, c: ReachCursor)
    ensures OrInto(Advance(Search([a, b], NewCache(1), {})).stack, 0, {next}) + [c]
            == [a.(reach := a.reach + {next}), b.(adjacentIdx := b.adjacentIdx + 1), c]
  {
  }

  lemma PushTriple(a: ReachCursor, b: ReachCursor, c: ReachCursor, next: NodeId, e: ReachCursor)
    ensures OrInto(Advance(Search([a, b, c], NewCache(1), {})).stack, 0, {next}) + [e]
            == [a.(reach := a.reach + {next}), b, c.(adjacentIdx := c.adjacentIdx + 1), e]
  {
  }

  lemma SkipSecond(a: ReachCursor, b: ReachCursor)
    ensures Advance(Search([a, b], NewCache(1), {})).stack == [a, b.(adjacentIdx := b.adjacentIdx + 1)]
  {
  }

  lemma RolledUpThird(a: ReachCursor, b: ReachCursor, c: ReachCursor, e: ReachCursor)
    requires e.reach <= c.reach
    ensures RolledUp([a, b, c, e]) == [a, b, c]
  {
    assert c.reach + e.reach == c.reach;
  }

  lemma RolledUpSecond(a: ReachCursor, b: ReachCursor, c: ReachCursor)
    ensures RolledUp([a, b, c]) == [a, b.(reach := b.reach + c.reach)]
  {
  }

  lemma RolledUpFirst(a: ReachCursor, b: ReachCursor)
    requires b.reach <= a.reach
    ensures RolledUp([a, b]) == [a]
  {
    assert a.reach + b.reach == a.reach;
  }

  lemma DiamondStarts(h: Digraph, d: Corners, cache: ReachCache)
    requires Shaped(h, d) && Fresh(cache)
    ensures At(After(h, d, cache, 0), [C(h, d.t, 0, {d.t})], {})
  {
    hide Valid, Untouched;
    DiamondCursors(h, d);
    assert Apart(d) by { ShapedApart(h, d); }
  }

  lemma DiamondDescends(h: Digraph, d: Corners, cache: ReachCache)
    requires Shaped(h, d) && Fresh(cache)
    ensures At(After(h, d, cache, 3), [C(h, d.t, 1, {d.t, d.l, d.m, d.z}), C(h, d.l, 1, {d.l, d.m}), C(h, d.m, 1, {d.m, d.z}), C(h, d.z, 0, {d.z})], {})
  {
    hide At, After, Valid, Untouched, Shaped, NewCursor, NewRootCursor, OrInto, Advance;
    DiamondCursors(h, d);
    assert Apart(d) by { ShapedApart(h, d); }
    DiamondStarts(h, d, cache);
    assert {d.t} + {d.l} == {d.t, d.l} && {d.t, d.l} + {d.m} == {d.t, d.l, d.m} && {d.t, d.l, d.m} + {d.z} == {d.t, d.l, d.m, d.z};
    PushSingle(C(h, d.t, 0, {d.t}), d.l, C(h, d.l, 0, {d.l, d.m}));
    DiamondPush(h, d, cache, 0, [C(h, d.t, 0, {d.t})], {}, d.l, [C(h, d.t, 1, {d.t, d.l}), C(h, d.l, 0, {d.l, d.m})]);
    PushDouble(C(h, d.t, 1, {d.t, d.l}), C(h, d.l, 0, {d.l, d.m}), d.m, C(h, d.m, 0, {d.m, d.z}));
    DiamondPush(h, d, cache, 1, [C(h, d.t, 1, {d.t, d.l}), C(h, d.l, 0, {d.l, d.m})], {}, d.m,
                [C(h, d.t, 1, {d.t, d.l, d.m}), C(h, d.l, 1, {d.l, d.m}), C(h, d.m, 0, {d.m, d.z})]);
    PushTriple(C(h, d.t, 1, {d.t, d.l, d.m}), C(h, d.l, 1, {d.l, d.m}), C(h, d.m, 0, {d.m, d.z}), d.z, C(h, d.z, 0, {d.z}));
    DiamondPush(h, d, cache, 2, [C(h, d.t, 1, {d.t, d.l, d.m}), C(h, d.l, 1, {d.l, d.m}), C(h, d.m, 0, {d.m, d.z})], {}, d.z,
                [C(h, d.t, 1, {d.t, d.l, d.m, d.z}), C(h, d.l, 1, {d.l, d.m}), C(h, d.m, 1, {d.m, d.z}), C(h, d.z, 0, {d.z})]);
  }

  lemma DiamondLowPops(h: Digraph, d: Corners, cache: ReachCache)
    requires Shaped(h, d) && Fresh(cache)
    ensures At(After(h, d, cache, 4), [C(h, d.t, 1, {d.t, d.l, d.m, d.z}), C(h, d.l, 1, {d.l, d.m}), C(h, d.m, 1, {d.m, d.z})], {d.z})
  {
    assert Valid(cache);
    hide At, After, Shaped, Valid, Untouched, Newest, RolledUp;
    DiamondCursors(h, d);
    DiamondDescends(h, d, cache);
    RolledUpThird(C(h, d.t, 1, {d.t, d.l, d.m, d.z}), C(h, d.l, 1, {d.l, d.m}), C(h, d.m, 1, {d.m, d.z}), C(h, d.z, 0, {d.z}));
    assert {} + {d.z} == {d.z};
    DiamondPop(h, d, cache, 3, [C(h, d.t, 1, {d.t, d.l, d.m, d.z}), C(h, d.l, 1, {d.l, d.m}), C(h, d.m, 1, {d.m, d.z}), C(h, d.z, 0, {d.z})], {}, [C(h, d.t, 1, {d.t, d.l, d.m, d.z}), C(h, d.l, 1, {d.l, d.m}), C(h, d.m, 1, {d.m, d.z})]);
  }

  lemma DiamondMiddlePops(h: Digraph, d: Corners, cache: ReachCache)
    requires Shaped(h, d) && Fresh(cache)
    ensures At(After(h, d, cache, 5), [C(h, d.t, 1, {d.t, d.l, d.m, d.z}), C(h, d.l, 1, {d.l, d.m, d.z})], {d.z, d.m})
  {
    assert Valid(cache);
    assert Apart(d) by { ShapedApart(h, d); }
    hide At, After, Shaped, Valid, Untouched, Newest, RolledUp;
    DiamondCursors(h, d);
    DiamondLowPops(h, d, cache);
    RolledUpSecond(C(h, d.t, 1, {d.t, d.l, d.m, d.z}), C(h, d.l, 1, {d.l, d.m}), C(h, d.m, 1, {d.m, d.z}));
    assert {d.l, d.m} + {d.m, d.z} == {d.l, d.m, d.z} && {d.z} + {d.m} == {d.z, d.m};
    DiamondPop(h, d, cache, 4, [C(h, d.t, 1, {d.t, d.l, d.m, d.z}), C(h, d.l, 1, {d.l, d.m}), C(h, d.m, 1, {d.m, d.z})], {d.z}, [C(h, d.t, 1, {d.t, d.l, d.m, d.z}), C(h, d.l, 1, {d.l, d.m, d.z})]);
  }

  lemma DiamondRollsUp(h: Digraph, d: Corners, cache: ReachCache)
    requires Shaped(h, d) && Fresh(cache)
    ensures At(After(h, d, cache, 6), [C(h, d.t, 1, {d.t, d.l, d.m, d.z})], {d.z, d.m, d.l})
  {
    assert Valid(cache);
    hide At, After, Shaped, Valid, Untouched, Newest, RolledUp;
    DiamondCursors(h, d);
    assert Apart(d) by { ShapedApart(h, d); }
    DiamondMiddlePops(h, d, cache);
    RolledUpFirst(C(h, d.t, 1, {d.t, d.l, d.m, d.z}), C(h, d.l, 1, {d.l, d.m, d.z}));
    assert {d.z, d.m} + {d.l} == {d.z, d.m, d.l};
    DiamondPop(h, d, cache, 5, [C(h, d.t, 1, {d.t, d.l, d.m, d.z}), C(h, d.l, 1, {d.l, d.m, d.z})], {d.z, d.m}, [C(h, d.t, 1, {d.t, d.l, d.m, d.z})]);
  }

  lemma DiamondSkips(h: Digraph, d: Corners, cache: ReachCache)
    requires Shaped(h, d) && Fresh(cache)
    ensures At(After(h, d, cache, 8), [C(h, d.t, 2, {d.z, d.m, d.l, d.r, d.t}), C(h, d.r, 1, {d.r, d.m})], {d.z, d.m, d.l})
  {
    assert Valid(cache);
    DiamondRollsUp(h, d, cache);
    hide At, After, Shaped, Valid, Untouched, OrInto, Advance;
    DiamondCursors(h, d);
    assert Apart(d) by { ShapedApart(h, d); }
    assert {d.t, d.l, d.m, d.z} + {d.r} == {d.z, d.m, d.l, d.r, d.t};
    PushSingle(C(h, d.t, 1, {d.t, d.l, d.m, d.z}), d.r, C(h, d.r, 0, {d.r, d.m}));
    DiamondPush(h, d, cache, 6, [C(h, d.t, 1, {d.t, d.l, d.m, d.z})], {d.z, d.m, d.l}, d.r, [C(h, d.t, 2, {d.z, d.m, d.l, d.r, d.t}), C(h, d.r, 0, {d.r, d.m})]);
    SkipSecond(C(h, d.t, 2, {d.z, d.m, d.l, d.r, d.t}), C(h, d.r, 0, {d.r, d.m}));
    DiamondSkip(h, d, cache, 7, [C(h, d.t, 2, {d.z, d.m, d.l, d.r, d.t}), C(h, d.r, 0, {d.r, d.m})], {d.z, d.m, d.l}, d.m, [C(h, d.t, 2, {d.z, d.m, d.l, d.r, d.t}), C(h, d.r, 1, {d.r, d.m})]);
  }

  lemma DiamondReturns(h: Digraph, d: Corners, cache: ReachCache)
    requires Shaped(h, d) && Fresh(cache)
    ensures At(After(h, d, cache, 9), [C(h, d.t, 2, {d.z, d.m, d.l, d.r, d.t})], {d.z, d.m, d.l, d.r}) && Newest(After(h, d, cache, 9).cache, d.r, {d.r, d.m})
  {
    assert Valid(cache);
    hide At, After, Shaped, Valid, Untouched, Newest, RolledUp;
    DiamondCursors(h, d);
    assert Apart(d) by { ShapedApart(h, d); }
    DiamondSkips(h, d, cache);
    RolledUpFirst(C(h, d.t, 2, {d.z, d.m, d.l, d.r, d.t}), C(h, d.r, 1, {d.r, d.m}));
    assert {d.z, d.m, d.l} + {d.r} == {d.z, d.m, d.l, d.r};
    DiamondPop(h, d, cache, 8, [C(h, d.t, 2, {d.z, d.m, d.l, d.r, d.t}), C(h, d.r, 1, {d.r, d.m})], {d.z, d.m, d.l}, [C(h, d.t, 2, {d.z, d.m, d.l, d.r, d.t})]);
  }

  /** Popping the root spares the entry put just before. */
  lemma PutRoot(cache: ReachCache, popped: set<NodeId>, k: NodeId, reach: Reach, last: NodeId, lastReach: Reach)
    requires Valid(cache) && Untouched(cache) && cache.capacity > 1 && cache.store.Keys <= popped && k !in popped
    requires Newest(cache, last, lastReach)
    ensures var t := AfterPut(cache, k, reach); last in t.store && t.store[last].value == lastReach
  {
    PutSparesNewest(cache, k, reach);
    hide Valid, Untouched, AfterPut;
  }

  lemma FinishRoot(h: Digraph, s: Search, root: ReachCursor, popped: set<NodeId>, last: NodeId, lastReach: Reach)
    requires At(s, [root], popped) && root.adjacentIdx >= |root.adjacent| && root.component !in popped
    requires Newest(s.cache, last, lastReach)
    ensures var t := Step(h, s, Outbound);
            t.stack == [] && t.result == root.reach && last in t.cache.store && t.cache.store[last].value == lastReach
  {
    hide Valid, Untouched, AfterPut, Newest;
    PutRoot(s.cache, popped, root.component, root.reach, last, lastReach);
  }

  /** The first call answers correctly and leaves the entry of the right corner without the lowest. */
  lemma DiamondEnds(h: Digraph, d: Corners, cache: ReachCache)
    requires Shaped(h, d) && Fresh(cache)
    ensures var s := After(h, d, cache, 10);
            s.stack == [] && s.result == {d.z, d.m, d.l, d.r, d.t} && d.r in s.cache.store && s.cache.store[d.r].value == {d.r, d.m}
  {
    hide Shaped, Valid, Untouched, Newest, At, Step;
    DiamondCursors(h, d);
    assert Apart(d) by { ShapedApart(h, d); }
    DiamondReturns(h, d, cache);
    StepsNext(h, After(h, d, cache, 0), Outbound, 9);
    FinishRoot(h, After(h, d, cache, 9), C(h, d.t, 2, {d.z, d.m, d.l, d.r, d.t}), {d.z, d.m, d.l, d.r}, d.r, {d.r, d.m});
  }

  lemma RightReachesLow(h: Digraph, d: Corners)
    requires Shaped(h, d)
    ensures Reaches(h, Outbound, d.r, d.z)
  {
    ReachesEdge(h, Outbound, d.r, d.m);
    ReachesThenEdge(h, Outbound, d.r, d.m, d.z);
  }

  /** With room for two, asking a new cache about the top leaves it answering that the right corner does not reach the lowest. */
  lemma SecondAnswerWrong(h: Digraph, d: Corners, capacity: int) returns (after: ReachCache, last: ReachCache)
    requires Shaped(h, d) && capacity > 1
    ensures Call(h, Outbound, NewCache(capacity), d.t, after, {d.z, d.m, d.l, d.r, d.t}) && Valid(after)
    ensures Call(h, Outbound, after, d.r, last, {d.r, d.m})
    ensures Reaches(h, Outbound, d.r, d.z) && !ExactEntry(h, Outbound, d.r, {d.r, d.m})
  {
    RightReachesLow(h, d);
    var cache: ReachCache := NewCache(capacity);
    var looked := Lookup(cache, Outbound, d.t).0;
    LookupKeeps(h, Outbound, cache, d.t);
    assert Fresh(looked);
    DiamondEnds(h, d, looked);
    after := After(h, d, looked, 10).cache;
    last := Lookup(after, Outbound, d.r).0;
    assert d.z !in {d.r, d.m};
    hide Reaches, Shaped, Steps, Valid;
    assert Ends(h, Outbound, looked, d.t, after, {d.z, d.m, d.l, d.r, d.t}, 10);
  }
}
