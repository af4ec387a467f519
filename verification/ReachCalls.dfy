/** `componentReachDFS` calls and runs of calls on one cache, and when every answer of a run is exact. */
module ReachCalls {
  import opened Digraphs
  import opened Optional
  import opened SieveCache
  import opened ReachSearch

  // ----- Calls -----

  /** One `componentReachDFS` call from `cache` may return `reach` and leave `after` behind. */
  ghost predicate Call(h: Digraph, direction: Direction, cache: ReachCache, start: NodeId, after: ReachCache, reach: Reach)
    requires Valid(cache)
  {
    var (looked, found) := Lookup(cache, direction, start);
    if found.Some? then after == looked && reach == found.value
    else Valid(looked) && exists n: nat :: Ends(h, direction, looked, start, after, reach, n)
  }

  ghost predicate Ends(h: Digraph, direction: Direction, cache: ReachCache, start: NodeId, after: ReachCache, reach: Reach, n: nat)
    requires Valid(cache)
  {
    var s := Steps(h, Begin(h, cache, direction, start), direction, n);
    s.stack == [] && s.cache == after && s.result == reach
  }

  lemma LookupKeeps(h: Digraph, direction: Direction, cache: ReachCache, k: NodeId)
    requires Valid(cache)
    ensures Valid(Lookup(cache, direction, k).0)
    ensures SoundCache(h, direction, cache) ==> SoundCache(h, direction, Lookup(cache, direction, k).0)
    ensures ExactCache(h, direction, cache) ==> ExactCache(h, direction, Lookup(cache, direction, k).0)
    ensures Lookup(cache, direction, k).1.Some? ==> direction != Both && k in cache.store && Lookup(cache, direction, k).1.value == cache.store[k].value
  {
    GetKeepsValid(cache, k);
    hide Valid, SoundEntry, ExactEntry;
  }

  /** A search that has ended stays as it is. */
  lemma {:induction false} EndedStays(h: Digraph, s: Search, direction: Direction, n: nat, m: nat)
    requires Valid(s.cache) && n <= m && Steps(h, s, direction, n).stack == []
    ensures Steps(h, s, direction, m) == Steps(h, s, direction, n)
    decreases m
  {
    hide Valid, Explore, Finish;
    if n < m {
      EndedStays(h, s, direction, n, m - 1);
    }
  }

  /** What a call returns and leaves behind is determined by the cache it finds. */
  lemma CallFunctional(h: Digraph, direction: Direction, cache: ReachCache, start: NodeId, a: ReachCache, r: Reach, b: ReachCache, q: Reach)
    requires Valid(cache) && Call(h, direction, cache, start, a, r) && Call(h, direction, cache, start, b, q)
    ensures a == b && r == q
  {
    hide Valid, Steps;
    var (looked, found) := Lookup(cache, direction, start);
    if found.None? {
      var n: nat :| Ends(h, direction, looked, start, a, r, n);
      var m: nat :| Ends(h, direction, looked, start, b, q, m);
      EndedStays(h, Begin(h, looked, direction, start), direction, if n <= m then n else m, if n <= m then m else n);
    }
  }

  /** Every call returns, and leaves in the cache, only true facts; each entry holds its component and direct neighbours. */
  lemma CallSound(h: Digraph, direction: Direction, cache: ReachCache, start: NodeId, after: ReachCache, reach: Reach)
    requires Valid(cache) && SoundCache(h, direction, cache) && Call(h, direction, cache, start, after, reach)
    ensures Valid(after) && SoundCache(h, direction, after) && SoundEntry(h, direction, start, reach)
  {
    LookupKeeps(h, direction, cache, start);
    var (looked, found) := Lookup(cache, direction, start);
    hide Valid, Lookup, SoundEntry, Steps;
    if found.None? {
      var n: nat :| Ends(h, direction, looked, start, after, reach, n);
      StepsRun(h, looked, direction, start, n);
    }
  }

  /** From a cache whose entries are all exact, a call returns exactly the reachable components. */
  lemma CallExact(h: Digraph, direction: Direction, cache: ReachCache, start: NodeId, after: ReachCache, reach: Reach)
    requires Valid(cache) && SoundCache(h, direction, cache) && Call(h, direction, cache, start, after, reach)
    requires ExactCache(h, direction, cache)
    ensures ExactEntry(h, direction, start, reach)
  {
    LookupKeeps(h, direction, cache, start);
    var (looked, found) := Lookup(cache, direction, start);
    hide Valid, Lookup, SoundCache, SoundRun, ExactEntry, Steps;
    if found.None? {
      var n: nat :| Ends(h, direction, looked, start, after, reach, n);
      StepsRun(h, looked, direction, start, n);
    }
  }

  /** Whatever is asked first, the next answer is right exactly when every entry of the cache is exact. */
  lemma CallsExactIff(h: Digraph, direction: Direction, cache: ReachCache)
    requires Valid(cache) && SoundCache(h, direction, cache) && direction != Both
    ensures ExactCache(h, direction, cache)
            <==> forall start, after, reach :: Call(h, direction, cache, start, after, reach) ==> ExactEntry(h, direction, start, reach)
  {
    if ExactCache(h, direction, cache) {
      forall start, after, reach | Call(h, direction, cache, start, after, reach)
        ensures ExactEntry(h, direction, start, reach)
      {
        CallExact(h, direction, cache, start, after, reach);
      }
    } else {
      var k :| k in cache.store && !ExactEntry(h, direction, k, cache.store[k].value);
      assert Call(h, direction, cache, k, Lookup(cache, direction, k).0, cache.store[k].value);
    }
  }

  /** Some call takes one cache state to the next. */
  ghost predicate CallNext(h: Digraph, direction: Direction, cache: ReachCache, after: ReachCache) {
    Valid(cache) && exists start, reach :: Call(h, direction, cache, start, after, reach)
  }

  /** `caches` are the cache states of a run of calls. */
  ghost predicate CallRun(h: Digraph, direction: Direction, capacity: int, caches: seq<ReachCache>) {
    && caches != [] && caches[0] == NewCache(capacity)
    && (forall i, j :: 0 <= i < |caches| - 1 && j == i + 1 ==> CallNext(h, direction, caches[i], caches[j]))
  }

  lemma NewCacheSound(h: Digraph, direction: Direction, capacity: int)
    ensures Valid<NodeId, Reach>(NewCache(capacity)) && SoundCache(h, direction, NewCache(capacity))
  {
  }

  lemma NextSound(h: Digraph, direction: Direction, cache: ReachCache, after: ReachCache)
    requires Valid(cache) && SoundCache(h, direction, cache) && CallNext(h, direction, cache, after)
    ensures Valid(after) && SoundCache(h, direction, after)
  {
    hide SoundCache, Call, Valid, SoundEntry;
    var start, reach :| Call(h, direction, cache, start, after, reach);
    CallSound(h, direction, cache, start, after, reach);
  }

  /** Over every run of calls on a new cache, every entry ever stored is sound. */
  lemma {:induction false} RunSound(h: Digraph, direction: Direction, capacity: int, caches: seq<ReachCache>, i: nat)
    requires CallRun(h, direction, capacity, caches) && i < |caches|
    ensures Valid(caches[i]) && SoundCache(h, direction, caches[i])
    decreases i
  {
    hide SoundCache, CallNext, Valid;
    if i == 0 {
      NewCacheSound(h, direction, capacity);
    } else {
      RunSound(h, direction, capacity, caches, i - 1);
      NextSound(h, direction, caches[i - 1], caches[i]);
    }
  }

  lemma StepsNext(h: Digraph, s: Search, direction: Direction, n: nat)
    requires Valid(s.cache)
    ensures Steps(h, s, direction, n + 1) == Step(h, Steps(h, s, direction, n), direction)
  {
  }

  // ----- Runs whose answers are all exact -----

  /** Whatever is asked next, the answer is exact. */
  ghost predicate AnswersExact(h: Digraph, direction: Direction, cache: ReachCache) {
    Valid(cache) && forall start, after, reach :: Call(h, direction, cache, start, after, reach) ==> ExactEntry(h, direction, start, reach)
  }

  /** At every point of the run all entries are exact, and so is whatever is answered next. */
  ghost predicate RunExact(h: Digraph, direction: Direction, caches: seq<ReachCache>) {
    forall i :: 0 <= i < |caches| ==> ExactCache(h, direction, caches[i]) && AnswersExact(h, direction, caches[i])
  }

  lemma NewCacheExact(h: Digraph, direction: Direction, capacity: int)
    ensures ExactCache(h, direction, NewCache(capacity))
  {
  }

  lemma ExactAnswers(h: Digraph, direction: Direction, cache: ReachCache)
    requires Valid(cache) && SoundCache(h, direction, cache) && ExactCache(h, direction, cache)
    ensures AnswersExact(h, direction, cache)
  {
    hide Valid, SoundCache, ExactCache, Call, ExactEntry;
    forall start, after, reach | Call(h, direction, cache, start, after, reach)
      ensures ExactEntry(h, direction, start, reach)
    {
      CallExact(h, direction, cache, start, after, reach);
    }
  }

  /** A search puts its own answer last, under the component it was asked about. */
  ghost predicate Recorded(direction: Direction, start: NodeId, s: Search) {
    && (s.stack != [] ==> s.stack[0].component == start)
    && (s.stack == [] && direction != Both ==> start in s.cache.store && s.cache.store[start].value == s.result)
  }

  lemma StepRecords(h: Digraph, s: Search, direction: Direction, start: NodeId)
    requires Valid(s.cache) && Recorded(direction, start, s)
    ensures Recorded(direction, start, Step(h, s, direction))
    ensures Step(h, s, direction).cache.capacity == s.cache.capacity
  {
    hide Valid, AfterPut;
    if s.stack != [] {
      PutKeepsValid(s.cache, Top(s).component, Top(s).reach);
      PutKeepsCapacity(s.cache, Top(s).component, Top(s).reach);
    }
  }

  lemma {:induction false} StepsRecord(h: Digraph, cache: ReachCache, direction: Direction, start: NodeId, n: nat)
    requires Valid(cache)
    ensures Recorded(direction, start, Steps(h, Begin(h, cache, direction, start), direction, n))
    ensures Steps(h, Begin(h, cache, direction, start), direction, n).cache.capacity == cache.capacity
    decreases n
  {
    hide Valid, Step;
    if n > 0 {
      hide Recorded;
      StepsRecord(h, cache, direction, start, n - 1);
      StepRecords(h, Steps(h, Begin(h, cache, direction, start), direction, n - 1), direction, start);
    }
  }

  /** A call keeps the capacity, and its answer is in the cache afterwards. */
  lemma CallRecords(h: Digraph, direction: Direction, cache: ReachCache, start: NodeId, after: ReachCache, reach: Reach)
    requires Valid(cache) && Call(h, direction, cache, start, after, reach)
    ensures after.capacity == cache.capacity
    ensures direction != Both ==> start in after.store && after.store[start].value == reach
  {
    hide Valid, Steps;
    var (looked, found) := Lookup(cache, direction, start);
    if found.None? {
      var n: nat :| Ends(h, direction, looked, start, after, reach, n);
      StepsRecord(h, looked, direction, start, n);
    }
  }

  /** With room for one entry, the answer of a call is all the cache holds afterwards. */
  lemma CallKeepsExact(h: Digraph, direction: Direction, cache: ReachCache, start: NodeId, after: ReachCache, reach: Reach)
    requires Valid(cache) && SoundCache(h, direction, cache) && ExactCache(h, direction, cache) && cache.capacity == 1
    requires Call(h, direction, cache, start, after, reach)
    ensures ExactCache(h, direction, after) && after.capacity == 1
  {
    hide Call, SoundCache, ExactEntry;
    CallSound(h, direction, cache, start, after, reach);
    CallExact(h, direction, cache, start, after, reach);
    CallRecords(h, direction, cache, start, after, reach);
    if direction != Both {
      OneEntry(after, start);
    }
  }

  /** With capacity one, or less, every run is exact whatever the graph. */
  lemma {:induction false} SmallCacheExact(h: Digraph, direction: Direction, capacity: int, caches: seq<ReachCache>, i: nat)
    requires CallRun(h, direction, capacity, caches) && i < |caches| && capacity <= 1
    ensures ExactCache(h, direction, caches[i]) && caches[i].capacity == 1
    decreases i
  {
    hide ExactCache, CallNext, Valid, SoundCache;
    if i == 0 {
      NewCacheExact(h, direction, capacity);
    } else {
      SmallCacheExact(h, direction, capacity, caches, i - 1);
      RunSound(h, direction, capacity, caches, i - 1);
      var start, reach := CallOf(h, direction, caches[i - 1], caches[i]);
      CallKeepsExact(h, direction, caches[i - 1], start, caches[i], reach);
    }
  }

  lemma CallOf(h: Digraph, direction: Direction, cache: ReachCache, after: ReachCache) returns (start: NodeId, reach: Reach)
    requires CallNext(h, direction, cache, after)
    ensures Valid(cache) && Call(h, direction, cache, start, after, reach)
  {
    hide Valid, Call;
    start, reach :| Call(h, direction, cache, start, after, reach);
  }

  /** A run whose caches stay exact is exact. */
  lemma ExactRuns(h: Digraph, direction: Direction, capacity: int, caches: seq<ReachCache>)
    requires CallRun(h, direction, capacity, caches)
    requires forall i :: 0 <= i < |caches| ==> ExactCache(h, direction, caches[i])
    ensures RunExact(h, direction, caches)
  {
    hide ExactCache, AnswersExact, CallRun, Valid, SoundCache;
    forall i | 0 <= i < |caches|
      ensures AnswersExact(h, direction, caches[i])
    {
      RunSound(h, direction, capacity, caches, i);
      ExactAnswers(h, direction, caches[i]);
    }
  }
}
