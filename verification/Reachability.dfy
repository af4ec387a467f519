/** `ReachabilityCache`: the component graph with one reach cache per direction. */
module Reachability {
  import opened Digraphs
  import opened Optional
  import opened SieveCache
  import opened ReachSearch
  import opened ReachCalls
  import opened ReachForests
  import StronglyConnected
  import opened Csr
  import opened Components
  import opened ComponentSearches
  import opened DiamondSearches
  import opened Diamonds

  // ----- A search ends -----

  /** What is left to do before a search ends: components to see, then cursors to pop, then neighbours of the top cursor. */
  ghost function Seen(s: Search): Reach {
    if s.stack == [] then s.result else s.stack[0].reach
  }

  ghost function Remaining(s: Search): nat {
    if s.stack == [] || Top(s).adjacentIdx >= |Top(s).adjacent| then 0 else |Top(s).adjacent| - Top(s).adjacentIdx
  }

  ghost function Unseen(h: Digraph, start: NodeId, s: Search): set<NodeId> {
    Universe(h, start) - Seen(s)
  }

  ghost function Universe(h: Digraph, start: NodeId): set<NodeId> {
    h.Nodes() + {start}
  }

  lemma ReachesWithin(h: Digraph, direction: Direction, start: NodeId, x: NodeId)
    requires h.Valid() && Reaches(h, direction, start, x)
    ensures x in Universe(h, start)
  {
    forall u, v | u in Universe(h, start) && v in h.Adjacent(u, direction)
      ensures v in Universe(h, start)
    {
      AdjacentReverse(h, direction, u, v);
    }
    ClosedReaches(h, direction, Universe(h, start), start, x);
  }

  lemma SeenWithin(h: Digraph, direction: Direction, start: NodeId, s: Search)
    requires h.Valid() && SoundRun(h, direction, start, s)
    ensures Seen(s) <= Universe(h, start)
  {
    hide Digraph.Valid, Reaches, Universe;
    forall x | x in Seen(s)
      ensures x in Universe(h, start)
    {
      if s.stack != [] {
        assert SoundCursor(h, direction, s.stack[0]);
      }
      ReachesWithin(h, direction, start, x);
    }
  }

  /** Every step sees something new, pops a cursor or passes a neighbour. */
  lemma StepProgress(h: Digraph, s: Search, direction: Direction)
    requires Valid(s.cache) && s.stack != []
    ensures var t := Step(h, s, direction);
            || Seen(s) < Seen(t)
            || (Seen(s) == Seen(t) && |t.stack| < |s.stack|)
            || (Seen(s) == Seen(t) && |t.stack| == |s.stack| && Remaining(t) < Remaining(s))
  {
    hide Valid, AfterPut;
    var t := Step(h, s, direction);
    if Top(s).adjacentIdx < |Top(s).adjacent| {
      var next := Top(s).adjacent[Top(s).adjacentIdx];
      if next !in s.stack[0].reach {
        assert next in t.stack[0].reach;
      }
    }
  }

  lemma StepMeasure(h: Digraph, s: Search, direction: Direction, start: NodeId)
    requires h.Valid() && Valid(s.cache) && s.stack != [] && SoundRun(h, direction, start, Step(h, s, direction))
    ensures var t := Step(h, s, direction);
            || Unseen(h, start, t) < Unseen(h, start, s)
            || (Unseen(h, start, t) == Unseen(h, start, s) && |t.stack| < |s.stack|)
            || (Unseen(h, start, t) == Unseen(h, start, s) && |t.stack| == |s.stack| && Remaining(t) < Remaining(s))
  {
    hide Digraph.Valid, Valid, SoundRun, Step, Universe, Seen, Remaining;
    StepProgress(h, s, direction);
    SeenWithin(h, direction, start, Step(h, s, direction));
  }

  // ----- The class -----

  class ReachabilityCache {
    ghost const origin: Digraph
    const components: ComponentGraph
    const inboundComponentReach: Sieve<NodeId, Reach>
    const outboundComponentReach: Sieve<NodeId, Reach>

    /** The component graph is the condensation of the original graph. */
    ghost predicate Built() {
      origin.Valid() && Condenses(origin, components)
    }

    ghost predicate Caches()
      reads inboundComponentReach, outboundComponentReach
    {
      && inboundComponentReach != outboundComponentReach
      && Valid(inboundComponentReach.State()) && Valid(outboundComponentReach.State())
    }

    ghost function CacheState(direction: Direction): ReachCache
      reads inboundComponentReach, outboundComponentReach
    {
      if direction == Inbound then inboundComponentReach.State() else outboundComponentReach.State()
    }

    /** The direction's cache has room for one entry, or no component has two predecessors. */
    ghost predicate Dependable(direction: Direction)
      reads inboundComponentReach, outboundComponentReach
    {
      CacheState(direction).capacity <= 1 || OnePredecessor(Dag(components), direction)
    }

    /** The direction's cache holds only true facts about the component graph, and whole ones where it is dependable. */
    ghost predicate Faithful(direction: Direction)
      reads inboundComponentReach, outboundComponentReach
    {
      && SoundCache(Dag(components), direction, CacheState(direction))
      && (Dependable(direction) ==> ExactCache(Dag(components), direction, CacheState(direction)))
    }

    ghost predicate Consistent()
      reads inboundComponentReach, outboundComponentReach
    {
      Built() && Caches() && Faithful(Inbound) && Faithful(Outbound)
    }

    constructor (g: Digraph, maxCacheSize: int)
      requires g.Valid()
      ensures Consistent() && origin == g && SingleEdges(components) && fresh(inboundComponentReach) && fresh(outboundComponentReach)
      ensures inboundComponentReach.State() == outboundComponentReach.State() == NewCache(maxCacheSize)
    {
      hide Condenses, Digraph.Valid, SingleEdges;
      origin := g;
      var condensed := NewComponentGraph(g);
      components := condensed;
      inboundComponentReach := new Sieve<NodeId, Reach>(maxCacheSize);
      outboundComponentReach := new Sieve<NodeId, Reach>(maxCacheSize);
      new;
      NewCacheSound(Dag(components), Inbound, maxCacheSize);
      NewCacheExact(Dag(components), Inbound, maxCacheSize);
      NewCacheSound(Dag(components), Outbound, maxCacheSize);
      NewCacheExact(Dag(components), Outbound, maxCacheSize);
    }

    method CachedComponentReach(component: NodeId, direction: Direction) returns (r: Option<Reach>)
      requires Caches()
      modifies inboundComponentReach, outboundComponentReach
      ensures (CacheState(direction), r) == Lookup(old(CacheState(direction)), direction, component)
      ensures Caches()
      ensures direction != Inbound ==> inboundComponentReach.State() == old(inboundComponentReach.State())
      ensures direction != Outbound ==> outboundComponentReach.State() == old(outboundComponentReach.State())
    {
      hide Valid;
      match direction
      case Inbound => r := inboundComponentReach.Get(component);
      case Outbound => r := outboundComponentReach.Get(component);
      case Both => r := None;
    }

    method CacheComponentReach(cursor: ReachCursor, direction: Direction)
      requires Caches()
      modifies inboundComponentReach, outboundComponentReach
      ensures CacheState(direction) == Store(old(CacheState(direction)), direction, cursor.component, cursor.reach)
      ensures Caches()
      ensures direction != Inbound ==> inboundComponentReach.State() == old(inboundComponentReach.State())
      ensures direction != Outbound ==> outboundComponentReach.State() == old(outboundComponentReach.State())
    {
      hide Valid, AfterPut;
      match direction
      case Inbound => inboundComponentReach.Put(cursor.component, cursor.reach);
      case Outbound => outboundComponentReach.Put(cursor.component, cursor.reach);
      case Both =>
    }

    /** One pass through the loop of `componentReachDFS`. */
    method SearchStep(stack: seq<ReachCursor>, result: Reach, direction: Direction) returns (stack': seq<ReachCursor>, result': Reach)
      requires components.digraph.Valid() && stack != []
      requires Caches()
      modifies inboundComponentReach, outboundComponentReach
      ensures Search(stack', CacheState(direction), result') == Step(Dag(components), Search(stack, old(CacheState(direction)), result), direction)
      ensures Caches()
      ensures direction != Inbound ==> inboundComponentReach.State() == old(inboundComponentReach.State())
      ensures direction != Outbound ==> outboundComponentReach.State() == old(outboundComponentReach.State())
    {
      hide Valid, Lookup, Store, CsrDigraph.Valid;
      var n := |stack|;
      var top := stack[n - 1];
      if top.adjacentIdx >= |top.adjacent| {
        stack', result' := stack[..n - 1], result;
        if n > 1 {
          stack' := stack'[n - 2 := stack'[n - 2].(reach := stack'[n - 2].reach + top.reach)];
        } else {
          result' := top.reach;
        }
        CacheComponentReach(top, direction);
      } else {
        var next := top.adjacent[top.adjacentIdx];
        stack', result' := stack[n - 1 := top.(adjacentIdx := top.adjacentIdx + 1)], result;
        if next !in stack'[0].reach {
          stack' := stack'[0 := stack'[0].(reach := stack'[0].reach + {next})];
          var cached := CachedComponentReach(next, direction);
          if cached.Some? {
            stack' := stack'[n - 1 := stack'[n - 1].(reach := stack'[n - 1].reach + cached.value)];
          } else {
            var adjacent := components.digraph.AdjacentNodes(next, direction);
            stack' := stack' + [ReachCursor(next, adjacent, 0, {next} + set x | x in adjacent)];
          }
        }
      }
    }

    /** The loop of `componentReachDFS`, entered when the component is not cached. */
    method SearchFrom(component: NodeId, direction: Direction) returns (reach: Reach)
      requires components.digraph.Valid() && Dag(components).Valid() && Caches()
      requires SoundCache(Dag(components), direction, CacheState(direction))
      modifies inboundComponentReach, outboundComponentReach
      ensures Caches()
      ensures exists n: nat :: Ends(Dag(components), direction, old(CacheState(direction)), component, CacheState(direction), reach, n)
      ensures direction != Inbound ==> inboundComponentReach.State() == old(inboundComponentReach.State())
      ensures direction != Outbound ==> outboundComponentReach.State() == old(outboundComponentReach.State())
    {
      ghost var h, looked := Dag(components), CacheState(direction);
      ghost var begin := Begin(h, looked, direction, component);
      var adjacent := components.digraph.AdjacentNodes(component, direction);
      assert adjacent == h.Adjacent(component, direction);
      var stack := [ReachCursor(component, adjacent, 0, {component})];
      reach := {};
      ghost var n: nat := 0;
      assert Search(stack, looked, reach) == Steps(h, begin, direction, 0);
      hide Valid, Digraph.Valid, Digraph.Adjacent, CsrDigraph.Valid, Dag, SoundRun, ExactRun, SoundCache, ExactCache, Step, Steps, Unseen, Remaining;
      while |stack| > 0
        invariant Caches() && Valid(looked)
        invariant Search(stack, CacheState(direction), reach) == Steps(h, begin, direction, n)
        invariant direction != Inbound ==> inboundComponentReach.State() == old(inboundComponentReach.State())
        invariant direction != Outbound ==> outboundComponentReach.State() == old(outboundComponentReach.State())
        decreases Unseen(h, component, Search(stack, CacheState(direction), reach)), |stack|, Remaining(Search(stack, CacheState(direction), reach))
      {
        ghost var s := Search(stack, CacheState(direction), reach);
        stack, reach := SearchStep(stack, reach, direction);
        StepsNext(h, begin, direction, n);
        n := n + 1;
        StepsRun(h, looked, direction, component, n);
        StepMeasure(h, s, direction, component);
      }
      assert Ends(h, direction, looked, component, CacheState(direction), reach, n);
    }

    lemma CallFaithful(direction: Direction, before: ReachCache, component: NodeId, after: ReachCache, reach: Reach)
      requires Built() && Valid(before) && SoundCache(Dag(components), direction, before)
      requires Call(Dag(components), direction, before, component, after, reach)
      ensures Valid(after) && SoundCache(Dag(components), direction, after) && after.capacity == before.capacity
      ensures SoundEntry(Dag(components), direction, component, reach)
      ensures ExactCache(Dag(components), direction, before) ==> ExactEntry(Dag(components), direction, component, reach)
      ensures ExactCache(Dag(components), direction, before) && (before.capacity <= 1 || OnePredecessor(Dag(components), direction))
              ==> ExactCache(Dag(components), direction, after)
    {
      ghost var h := Dag(components);
      assert before.capacity > 0;
      assert direction == Both ==> ExactCache(h, direction, after);
      hide Valid, Digraph.Valid, Dag, Call, SoundCache, ExactCache, SoundEntry, ExactEntry, Condenses, Acyclic, OnePredecessor;
      CallSound(h, direction, before, component, after, reach);
      CallRecords(h, direction, before, component, after, reach);
      if ExactCache(h, direction, before) {
        CallExact(h, direction, before, component, after, reach);
        if before.capacity <= 1 {
          CallKeepsExact(h, direction, before, component, after, reach);
        } else if OnePredecessor(h, direction) && direction != Both {
          CondensationHasNoCycle(origin, components, direction);
          ForestCallKeepsExact(h, direction, before, component, after, reach);
        }
      }
    }

    /** What a call about `direction` leaves of both caches. */
    twostate predicate Called(direction: Direction)
      reads inboundComponentReach, outboundComponentReach
    {
      && CacheState(direction).capacity == old(CacheState(direction)).capacity
      && (direction != Inbound ==> inboundComponentReach.State() == old(inboundComponentReach.State()))
      && (direction != Outbound ==> outboundComponentReach.State() == old(outboundComponentReach.State()))
    }

    /** The body of `componentReachDFS`: the cached answer, or a search. */
    method CachedOrSearched(component: NodeId, direction: Direction) returns (reach: Reach)
      requires Built() && Caches() && SoundCache(Dag(components), direction, CacheState(direction))
      modifies inboundComponentReach, outboundComponentReach
      ensures Caches()
      ensures direction != Inbound ==> inboundComponentReach.State() == old(inboundComponentReach.State())
      ensures direction != Outbound ==> outboundComponentReach.State() == old(outboundComponentReach.State())
      ensures Call(Dag(components), direction, old(CacheState(direction)), component, CacheState(direction), reach)
    {
      ghost var h, before := Dag(components), CacheState(direction);
      BuiltFacts();
      hide Valid, Digraph.Valid, CsrDigraph.Valid, Dag, Lookup, SoundCache, Built, Ends;
      LookupKeeps(h, direction, before, component);
      var cached := CachedComponentReach(component, direction);
      if cached.Some? {
        reach := cached.value;
      } else {
        reach := SearchFrom(component, direction);
      }
    }

    lemma FaithfulBoth()
      ensures Faithful(Both)
    {
    }

    method ComponentReachDFS(component: NodeId, direction: Direction) returns (reach: Reach)
      requires Consistent()
      modifies inboundComponentReach, outboundComponentReach
      ensures Consistent() && Called(direction)
      ensures Call(Dag(components), direction, old(CacheState(direction)), component, CacheState(direction), reach)
      ensures SoundEntry(Dag(components), direction, component, reach)
      ensures old(ExactCache(Dag(components), direction, CacheState(direction))) || Dependable(direction) ==> ExactEntry(Dag(components), direction, component, reach)
    {
      hide Valid, Dag, Call, SoundCache, ExactCache, SoundEntry, ExactEntry, Built, OnePredecessor;
      ghost var before := CacheState(direction);
      FaithfulBoth();
      assert Faithful(direction);
      reach := CachedOrSearched(component, direction);
      CallFaithful(direction, before, component, CacheState(direction), reach);
      FaithfulBoth();
      assert Faithful(direction);
    }

    /** A directed path joins the two nodes in the original graph. */
    method CanReach(startID: NodeId, endID: NodeId, direction: Direction) returns (r: bool)
      requires Built()
      ensures r <==> startID in origin.order && endID in origin.order && Reaches(origin, direction, startID, endID)
    {
      BuiltFacts();
      hide Condenses, Reaches, Digraph.Valid, CsrDigraph.Valid, Dag;
      if startID in components.memberComponentLookup && endID in components.memberComponentLookup {
        r := ComponentReachable(components, components.memberComponentLookup[startID], components.memberComponentLookup[endID], direction);
        CondensationReaches(origin, components, direction, startID, endID);
      } else {
        r := false;
      }
    }

    /** All members of the given components. */
    method MembersOf(reach: Reach) returns (members: set<NodeId>)
      requires Condenses(origin, components) && forall c :: c in reach ==> c < |components.componentMembers|
      ensures forall v :: v in members <==> v in components.memberComponentLookup && components.memberComponentLookup[v] in reach
    {
      hide CsrDigraph.Valid, Dag, Digraph.Valid, Reaches, StronglyConnected.Descending;
      members := {};
      var todo := reach;
      while todo != {}
        invariant todo <= reach
        invariant forall v :: v in members <==> v in components.memberComponentLookup && components.memberComponentLookup[v] in reach - todo
      {
        var c :| c in todo;
        members := members + components.componentMembers[c];
        todo := todo - {c};
      }
    }

    ghost predicate OnlyReached(direction: Direction, member: NodeId, r: set<NodeId>) {
      forall v :: v in r ==> member in origin.order && v in origin.order && Reaches(origin, direction, member, v)
    }

    ghost predicate AllReached(direction: Direction, member: NodeId, r: set<NodeId>) {
      forall v :: v in origin.order && Reaches(origin, direction, member, v) ==> v in r
    }

    /** `r` holds the members of the components in `reach`. */
    ghost predicate AreMembers(reach: Reach, r: set<NodeId>) {
      forall v :: v in r <==> v in components.memberComponentLookup && components.memberComponentLookup[v] in reach
    }

    /** One call about component `c` leaves `after` behind and returns the components whose members are `r`. */
    ghost predicate Answers(direction: Direction, before: ReachCache, c: NodeId, after: ReachCache, r: set<NodeId>) {
      Valid(before) && exists reach :: Call(Dag(components), direction, before, c, after, reach) && AreMembers(reach, r)
    }

    /** Nodes of the original graph reachable from `member`; all of them when the direction is dependable or its cache exact. */
    method ReachOfComponentContainingMember(member: NodeId, direction: Direction) returns (r: set<NodeId>)
      requires Consistent()
      modifies inboundComponentReach, outboundComponentReach
      ensures Consistent() && Called(direction)
      ensures OnlyReached(direction, member, r)
      ensures (old(ExactCache(Dag(components), direction, CacheState(direction))) || Dependable(direction)) && member in origin.order
              ==> AllReached(direction, member, r)
      ensures member in components.memberComponentLookup
              ==> Answers(direction, old(CacheState(direction)), components.memberComponentLookup[member], CacheState(direction), r)
    {
      hide Condenses, Digraph.Valid, CsrDigraph.Valid, Dag, Valid, Faithful, ExactCache, Call, SoundEntry, ExactEntry, Built, OnlyReached, AllReached, Caches, OnePredecessor;
      BuiltFacts();
      CachesValid(direction);
      if member in components.memberComponentLookup {
        var c := components.memberComponentLookup[member];
        var reach := ComponentReachDFS(c, direction);
        ReachedComponents(c, direction, reach, member);
        r := MembersOf(reach);
        MembersReach(c, direction, reach, member, r);
        assert AreMembers(reach, r);
      } else {
        r := {};
        NothingReached(direction, member);
      }
    }

    lemma CachesValid(direction: Direction)
      requires Caches()
      ensures Valid(CacheState(direction))
    {
    }

    lemma NothingReached(direction: Direction, member: NodeId)
      ensures OnlyReached(direction, member, {})
    {
    }

    lemma MembersReach(c: nat, direction: Direction, reach: Reach, member: NodeId, r: set<NodeId>)
      requires Built() && SoundEntry(Dag(components), direction, c, reach)
      requires member in components.memberComponentLookup && components.memberComponentLookup[member] == c
      requires forall v :: v in r <==> v in components.memberComponentLookup && components.memberComponentLookup[v] in reach
      ensures OnlyReached(direction, member, r)
      ensures ExactEntry(Dag(components), direction, c, reach) ==> AllReached(direction, member, r)
    {
      hide Condenses, Reaches, Digraph.Valid, CsrDigraph.Valid, Dag, Built;
      BuiltFacts();
      forall v | v in components.memberComponentLookup
        ensures Reaches(origin, direction, member, v) <==> Reaches(Dag(components), direction, c, components.memberComponentLookup[v])
      {
        CondensationReaches(origin, components, direction, member, v);
      }
    }

    lemma ReachedComponents(c: nat, direction: Direction, reach: Reach, member: NodeId)
      requires Built() && SoundEntry(Dag(components), direction, c, reach)
      requires member in components.memberComponentLookup && components.memberComponentLookup[member] == c
      ensures forall d :: d in reach ==> d < |components.componentMembers|
    {
      hide Digraph.Valid, Reaches, CsrDigraph.Valid, StronglyConnected.Descending;
      forall d | d in reach
        ensures d < |components.componentMembers|
      {
        ReachesWithin(Dag(components), direction, c, d);
      }
    }

    /** Adds what `node` reaches to `duplex`, without `node` itself. */
    method OrReach(node: NodeId, direction: Direction, duplex: set<NodeId>) returns (r: set<NodeId>)
      requires Consistent()
      modifies inboundComponentReach, outboundComponentReach
      ensures Consistent() && Called(direction) && node !in r
      ensures forall v :: v in r ==> v in duplex || Reaches(origin, direction, node, v)
      ensures (old(ExactCache(Dag(components), direction, CacheState(direction))) || Dependable(direction)) && node in origin.order
              ==> forall v :: v in r <==> v != node && (v in duplex || (v in origin.order && Reaches(origin, direction, node, v)))
    {
      hide Reaches, ExactCache, Built, Caches, Faithful, Dag, Call, OnePredecessor;
      var reach := ReachOfComponentContainingMember(node, direction);
      r := (duplex + reach) - {node};
    }

    lemma BuiltFacts()
      requires Built()
      ensures components.digraph.Valid() && Dag(components).Valid() && Condenses(origin, components) && origin.Valid()
      ensures forall v :: v in components.memberComponentLookup <==> v in origin.order
    {
      DecompositionKeys(origin, components);
      assert forall v :: v in origin.Nodes() <==> v in origin.order;
      hide Digraph.Valid, StronglyConnected.IsDecomposition, CsrDigraph.Valid, Dag;
    }
  }

  // ----- Two questions about the diamond -----

  /** The nodes whose components are among the corners given. */
  lemma MembersAre(cache: ReachabilityCache, reach: Reach, nodes: set<NodeId>, r: set<NodeId>)
    requires Condenses(Diamond(), cache.components) && Total(cache.components) && cache.AreMembers(reach, r)
    requires forall v :: v in nodes ==> v < 5
    requires reach == set v | v in nodes :: cache.components.memberComponentLookup[v]
    ensures r == nodes
  {
    hide Condenses, Diamond;
    var lookup := cache.components.memberComponentLookup;
    forall v | v in r
      ensures v in nodes
    {
      var u :| u in nodes && lookup[u] == lookup[v];
      LookupInjective(cache.components, u, v);
    }
    forall v | v in nodes
      ensures v in r
    {
      assert lookup[v] in reach;
    }
  }

  /** The node of the right corner. */
  ghost function RightNode(cg: ComponentGraph, d: Corners): NodeId
    requires Total(cg)
  {
    if d.r == cg.memberComponentLookup[3] then 3 else 2
  }

  ghost predicate CornersOf(cg: ComponentGraph, d: Corners) {
    && Total(cg) && Shaped(Dag(cg), d)
    && var lookup := cg.memberComponentLookup;
       d == Corners(lookup[4], lookup[2], lookup[3], lookup[1], lookup[0]) || d == Corners(lookup[4], lookup[3], lookup[2], lookup[1], lookup[0])
  }

  lemma FirstAnswer(cache: ReachabilityCache, d: Corners, capacity: int, state: ReachCache, r: set<NodeId>)
    requires cache.Built() && cache.origin == Diamond() && CornersOf(cache.components, d) && capacity > 1
    requires cache.Answers(Outbound, NewCache(capacity), d.t, state, r)
    ensures r == {0, 1, 2, 3, 4} && Call(Dag(cache.components), Outbound, NewCache(capacity), d.t, state, {d.z, d.m, d.l, d.r, d.t})
  {
    hide Call, Reaches, ReachabilityCache.AreMembers, Valid, Diamond, ExactEntry, Dag, Condenses, Shaped;
    var h := Dag(cache.components);
    var reach :| Call(h, Outbound, NewCache(capacity), d.t, state, reach) && cache.AreMembers(reach, r);
    var after, _ := SecondAnswerWrong(h, d, capacity);
    CallFunctional(h, Outbound, NewCache(capacity), d.t, after, {d.z, d.m, d.l, d.r, d.t}, state, reach);
    var nodes := {0, 1, 2, 3, 4};
    var lookup := cache.components.memberComponentLookup;
    assert reach == set v | v in nodes :: lookup[v] by {
      assert lookup[0] in reach && lookup[1] in reach && lookup[2] in reach && lookup[3] in reach && lookup[4] in reach;
      assert 0 in nodes && 1 in nodes && 2 in nodes && 3 in nodes && 4 in nodes;
    }
    MembersAre(cache, reach, nodes, r);
  }

  lemma SecondAnswer(cache: ReachabilityCache, d: Corners, capacity: int, state: ReachCache, next: ReachCache, r: set<NodeId>)
    requires cache.Built() && cache.origin == Diamond() && CornersOf(cache.components, d) && capacity > 1 && Valid<NodeId, Reach>(NewCache(capacity))
    requires Call(Dag(cache.components), Outbound, NewCache(capacity), d.t, state, {d.z, d.m, d.l, d.r, d.t}) && cache.Answers(Outbound, state, d.r, next, r)
    ensures r == {RightNode(cache.components, d), 1} && Reaches(Dag(cache.components), Outbound, d.r, d.z)
  {
    hide Call, Reaches, ReachabilityCache.AreMembers, Valid, Diamond, ExactEntry, Dag, Condenses, Shaped;
    var h := Dag(cache.components);
    var reach :| Call(h, Outbound, state, d.r, next, reach) && cache.AreMembers(reach, r);
    var after, last := SecondAnswerWrong(h, d, capacity);
    CallFunctional(h, Outbound, NewCache(capacity), d.t, after, {d.z, d.m, d.l, d.r, d.t}, state, {d.z, d.m, d.l, d.r, d.t});
    CallFunctional(h, Outbound, after, d.r, last, {d.r, d.m}, next, reach);
    var x := RightNode(cache.components, d);
    var nodes, lookup := {x, 1}, cache.components.memberComponentLookup;
    assert reach == set v | v in nodes :: lookup[v] by {
      assert x in nodes && 1 in nodes && lookup[x] == d.r && lookup[1] == d.m;
    }
    MembersAre(cache, reach, nodes, r);
  }

  lemma RightReaches(cache: ReachabilityCache, d: Corners)
    requires cache.Built() && cache.origin == Diamond() && CornersOf(cache.components, d)
    requires Reaches(Dag(cache.components), Outbound, d.r, d.z)
    ensures Reaches(Diamond(), Outbound, RightNode(cache.components, d), 0)
  {
    hide Reaches, Dag, Diamond, Shaped, Condenses;
    CondensationReaches(Diamond(), cache.components, Outbound, RightNode(cache.components, d), 0);
  }

  /** The member of the second neighbour of the top. */
  method SecondNeighbour(cache: ReachabilityCache, ghost d: Corners) returns (x: NodeId)
    requires cache.Built() && CornersOf(cache.components, d)
    ensures x == RightNode(cache.components, d) && cache.components.memberComponentLookup[x] == d.r
  {
    var lookup := cache.components.memberComponentLookup;
    var adjacent := cache.components.digraph.AdjacentNodes(lookup[4], Outbound);
    assert adjacent == [d.l, d.r];
    x := if adjacent[1] == lookup[3] then 3 else 2;
  }

  /**
   * A new cache on the diamond with room for more than one entry, asked about 4 and then about the one of 2 and 3 that comes second among
   * its neighbours, says that this one does not reach 0, which it does.
   */
  method AskDiamond(capacity: int) returns (first: set<NodeId>, x: NodeId, second: set<NodeId>)
    requires capacity > 1
    ensures first == {0, 1, 2, 3, 4}
    ensures (x == 2 || x == 3) && second == {x, 1} && Reaches(Diamond(), Outbound, x, 0)
  {
    hide Call, Reaches, ReachabilityCache.Answers, ReachabilityCache.OnlyReached, ReachabilityCache.AllReached, ReachabilityCache.Faithful,
         ReachabilityCache.Dependable, Valid, Diamond, ExactCache, Dag, Condenses, SingleEdges, Shaped, Digraph.Valid, Digraph.Adjacent, CsrDigraph.Valid, CsrDigraph.View;
    DiamondValid();
    var cache := new ReachabilityCache(Diamond(), capacity);
    ghost var d := ShapeOf(cache.components);
    NewCacheSound(Diamond(), Outbound, capacity);
    first := cache.ReachOfComponentContainingMember(4, Outbound);
    ghost var state := cache.CacheState(Outbound);
    FirstAnswer(cache, d, capacity, state, first);
    x := SecondNeighbour(cache, d);
    second := cache.ReachOfComponentContainingMember(x, Outbound);
    SecondAnswer(cache, d, capacity, state, cache.CacheState(Outbound), second);
    RightReaches(cache, d);
  }
}
