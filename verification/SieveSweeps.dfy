/** Which key a sweep takes: the oldest one nobody asked for since the last sweep passed it. */
module SieveSweeps {
  import opened Optional
  import opened Sequences
  import opened SieveCache
  import opened SieveRuns

  // ----- One sweep that does not wrap -----

  /** From the hand towards the front, the first key whose flag is not set is at `v`. */
  ghost predicate StopsAt<K(!new), V>(c: Cache<K, V>, v: nat) {
    && Valid(c) && |c.queue| > 0 && v <= Start(c)
    && !c.store[c.queue[v]].visited && forall i :: v < i <= Start(c) ==> c.store[c.queue[i]].visited
  }

  lemma StopsThere<K(!new), V>(c: Cache<K, V>, v: nat)
    requires StopsAt(c, v)
    ensures Start(c) < |c.queue| && Queued(c) && Hops(c, Start(c), 0) == Start(c) - v && Victim(c) == c.queue[v]
  {
    var p, n := Start(c), |c.queue|;
    assert forall e :: 0 <= e <= p ==> Hop(p, e, n) == p - e;
    assert Hop(p, p - v, n) == v;
  }

  lemma IndexIs<K(!new)>(queue: seq<K>, v: nat)
    requires Distinct(queue) && v < |queue|
    ensures IndexOf(queue, queue[v]) == v
  {
  }

  /** Such a sweep takes the key at `v` out and leaves the hand on the one in front of it. */
  lemma EvictAt<K(!new), V>(c: Cache<K, V>, v: nat)
    requires StopsAt(c, v)
    ensures v < |c.queue| && AfterEvict(c).queue == c.queue[..v] + c.queue[v + 1..] && AfterEvict(c).capacity == c.capacity
    ensures AfterEvict(c).hand == if v == 0 then None else Some(c.queue[v - 1])
  {
    StopsThere(c, v);
    hide Hops, Cleared, Start, Hop, Valid, StopsAt, IndexOf;
    assert Distinct(c.queue) by { StopsDistinct(c, v); }
    IndexIs(c.queue, v);
  }

  lemma StopsDistinct<K(!new), V>(c: Cache<K, V>, v: nat)
    requires StopsAt(c, v)
    ensures Distinct(c.queue) && v < |c.queue|
  {
  }

  lemma PassedFlags<K(!new), V>(c: Cache<K, V>, p: nat, d: nat, i: nat)
    requires Valid(c) && d <= p < |c.queue| && i < |c.queue|
    ensures c.queue[i] in Cleared(c, p, d) && c.queue[i] in c.store
    ensures Cleared(c, p, d)[c.queue[i]].visited <==> c.store[c.queue[i]].visited && !(p - d < i <= p)
  {
    var n, k := |c.queue|, c.queue[i];
    assert forall e :: 0 <= e < d ==> Hop(p, e, n) == p - e;
    if p - d < i <= p {
      assert c.queue[Hop(p, p - i, n)] == k;
    }
  }

  /** It clears the flags it passes and no others. */
  lemma EvictFlags<K(!new), V>(c: Cache<K, V>, v: nat, i: nat)
    requires StopsAt(c, v) && i < |c.queue| && i != v
    ensures c.queue[i] in AfterEvict(c).store && c.queue[i] in c.store
    ensures AfterEvict(c).store[c.queue[i]].visited <==> c.store[c.queue[i]].visited && !(v < i <= Start(c))
  {
    StopsThere(c, v);
    PassedFlags(c, Start(c), Start(c) - v, i);
    StopsDistinct(c, v);
    hide Hops, IndexOf, Without, Cleared, Start, Valid, StopsAt;
  }

  /** The capacity stays. */
  lemma {:induction false} RunCapacity<K(!new), V>(capacity: int, ops: seq<Op<K, V>>)
    ensures Run(capacity, ops).capacity == Room(capacity)
  {
    if ops != [] {
      var front, op := ops[..|ops| - 1], ops[|ops| - 1];
      RunCapacity(capacity, front);
      if op.PutOp? {
        PutKeepsCapacity(Run(capacity, front), op.key, op.value);
      }
      hide AfterPut, Valid;
    }
  }

  // ----- Without a second chance, first in first out -----

  ghost predicate AllPuts<K(!new), V>(ops: seq<Op<K, V>>) {
    && (forall i :: 0 <= i < |ops| ==> ops[i].PutOp?)
    && (forall i, j :: 0 <= i < j < |ops| ==> ops[i].key != ops[j].key)
  }

  function Least(a: nat, b: nat): nat {
    if a < b then a else b
  }

  function Room(capacity: int): nat {
    if capacity <= 0 then 1 else capacity
  }

  /** No flag is set, and the next sweep starts at the oldest key. */
  ghost predicate Fresh<K(!new), V>(c: Cache<K, V>) {
    && (forall k :: k in c.store ==> !c.store[k].visited)
    && (c.hand.Some? ==> c.queue != [] && c.hand.value == c.queue[|c.queue| - 1])
  }

  lemma FreshEvict<K(!new), V>(c: Cache<K, V>)
    requires Valid(c) && Fresh(c) && |c.queue| > 0
    ensures Fresh(AfterEvict(c)) && AfterEvict(c).queue == c.queue[..|c.queue| - 1] && AfterEvict(c).capacity == c.capacity
  {
    var n := |c.queue| - 1;
    assert Start(c) == n by { FreshStarts(c); }
    assert c.queue[n] in c.store;
    assert StopsAt(c, n);
    EvictAt(c, n);
    hide AfterEvict, StopsAt, Start, Valid;
    forall k | k in AfterEvict(c).store
      ensures !AfterEvict(c).store[k].visited
    {
      EvictSetsNoFlag(c, k);
    }
  }

  lemma FreshStarts<K(!new), V>(c: Cache<K, V>)
    requires Valid(c) && Fresh(c) && |c.queue| > 0
    ensures Start(c) == |c.queue| - 1
  {
    IndexIs(c.queue, |c.queue| - 1);
  }

  lemma FreshInsert<K(!new), V>(c: Cache<K, V>, k: K, v: V)
    requires Fresh(c)
    ensures Fresh(Insert(c, k, v))
  {
    assert c.queue != [] ==> ([k] + c.queue)[|c.queue|] == c.queue[|c.queue| - 1];
  }

  /** A new key in a fresh cache pushes out the oldest one, if there is no room. */
  lemma FreshPut<K(!new), V>(c: Cache<K, V>, k: K, v: V)
    requires Valid(c) && Fresh(c) && k !in c.store
    ensures var c' := AfterPut(c, k, v);
            Fresh(c') && c'.capacity == c.capacity && c'.queue == [k] + c.queue[..Least(|c.queue|, c.capacity - 1)]
  {
    hide AfterEvict, Fresh;
    assert c.queue[..|c.queue|] == c.queue;
    if |c.queue| >= c.capacity {
      FreshEvict(c);
      FreshInsert(AfterEvict(c), k, v);
    } else {
      FreshInsert(c, k, v);
    }
  }

  /** The queue is the last keys put, newest first, as many as fit. */
  ghost predicate LastOnes<K(!new), V>(queue: seq<K>, room: nat, ops: seq<Op<K, V>>) {
    |queue| == Least(|ops|, room) && forall i :: 0 <= i < |queue| ==> queue[i] == ops[|ops| - 1 - i].key
  }

  lemma LastOnesMore<K(!new), V>(queue: seq<K>, room: nat, ops: seq<Op<K, V>>, op: Op<K, V>)
    requires LastOnes(queue, room, ops) && room > 0
    ensures Least(|queue|, room - 1) <= |queue| && LastOnes([op.key] + queue[..Least(|queue|, room - 1)], room, ops + [op])
  {
    var more, all := [op.key] + queue[..Least(|queue|, room - 1)], ops + [op];
    forall i | 0 <= i < |more|
      ensures more[i] == all[|all| - 1 - i].key
    {
      if i > 0 {
        assert queue[i - 1] == ops[|ops| - 1 - (i - 1)].key;
      }
    }
  }

  /** With puts of different keys only, the cache holds the last ones that fit, and so evicts the oldest. */
  lemma {:induction false} OldestFirst<K(!new), V>(capacity: int, ops: seq<Op<K, V>>)
    requires AllPuts(ops)
    ensures Fresh(Run(capacity, ops)) && Run(capacity, ops).capacity == Room(capacity) && LastOnes(Run(capacity, ops).queue, Room(capacity), ops)
  {
    hide Valid, Fresh;
    if ops == [] {
      assert Fresh(Run(capacity, ops)) by { FreshStart<K, V>(capacity); }
    } else {
      var front, op := ops[..|ops| - 1], ops[|ops| - 1];
      assert ops == front + [op];
      OldestFirst(capacity, front);
      hide AfterPut, Run, LastOnes;
      NotQueued(capacity, front, op);
      FreshPut(Run(capacity, front), op.key, op.value);
      LastOnesMore(Run(capacity, front).queue, Room(capacity), front, op);
      RunMore(capacity, front, op);
    }
  }

  lemma FreshStart<K(!new), V>(capacity: int)
    ensures Fresh<K, V>(NewCache(capacity))
  {
  }

  lemma NotQueued<K(!new), V>(capacity: int, ops: seq<Op<K, V>>, op: Op<K, V>)
    requires AllPuts(ops + [op]) && LastOnes(Run(capacity, ops).queue, Room(capacity), ops)
    ensures op.PutOp? && op.key !in Run(capacity, ops).store
  {
    var all := ops + [op];
    assert all[|ops|] == op && forall i :: 0 <= i < |ops| ==> all[i] == ops[i];
    hide Run;
  }

  /** The stored keys of such a run are exactly the last ones put. */
  lemma HoldsTheLast<K(!new), V>(capacity: int, ops: seq<Op<K, V>>, k: K)
    requires AllPuts(ops)
    ensures k in Run(capacity, ops).store <==> exists i: nat :: |ops| - Room(capacity) <= i < |ops| && ops[i].key == k
  {
    OldestFirst(capacity, ops);
    var c := Run(capacity, ops);
    if k in c.store {
      var i := IndexOf(c.queue, k);
      assert ops[|ops| - 1 - i].key == k;
    }
    if i: nat :| |ops| - Room(capacity) <= i < |ops| && ops[i].key == k {
      assert c.queue[|ops| - 1 - i] == k;
    }
  }

  // ----- What was asked for outlives the rest -----

  ghost function KeysOf<K(!new), V>(ops: seq<Op<K, V>>): seq<K> {
    seq(|ops|, i requires 0 <= i < |ops| => ops[i].key)
  }

  /** The keys nobody asked for, in the order they were put. */
  ghost function Left<K(!new)>(keys: seq<K>, asked: set<K>): seq<K> {
    if keys == [] then []
    else
      var n := |keys| - 1;
      if keys[n] in asked then Left(keys[..n], asked) else Left(keys[..n], asked) + [keys[n]]
  }

  lemma {:induction false} LeftIs<K(!new)>(keys: seq<K>, asked: set<K>)
    ensures forall k :: k in Left(keys, asked) <==> k in keys && k !in asked
  {
    if keys != [] {
      var n := |keys| - 1;
      LeftIs(keys[..n], asked);
      assert keys == keys[..n] + [keys[n]];
    }
  }

  /** The first `|Left(keys[..p], asked)|` keys nobody asked for are those among the first `p`. */
  lemma {:induction false} LeftPrefix<K(!new)>(keys: seq<K>, asked: set<K>, p: nat)
    requires p <= |keys|
    ensures Left(keys[..p], asked) <= Left(keys, asked)
  {
    if p == |keys| {
      assert keys[..p] == keys;
    } else {
      var n := |keys| - 1;
      LeftPrefix(keys[..n], asked, p);
      assert keys[..n][..p] == keys[..p];
    }
  }

  /** The new keys are at the front, newest first. */
  ghost predicate NewsFirst<K(!new)>(queue: seq<K>, news: seq<K>) {
    |news| <= |queue| && forall i :: 0 <= i < |news| ==> queue[i] == news[|news| - 1 - i]
  }

  /** Behind `m` new keys stand the keys from `p` on, newest first. */
  ghost predicate KeysNext<K(!new)>(queue: seq<K>, keys: seq<K>, m: nat, p: nat) {
    p <= |keys| && m + |keys| - p <= |queue| && forall i :: p <= i < |keys| ==> queue[m + |keys| - 1 - i] == keys[i]
  }

  /** Behind these are the keys before `p` that were asked for. */
  ghost predicate AskedLast<K(!new)>(queue: seq<K>, keys: seq<K>, asked: set<K>, m: nat, p: nat) {
    p <= |keys| && m + |keys| - p <= |queue| && forall k :: k in queue[m + |keys| - p..] <==> k in keys[..p] && k in asked
  }

  /** A queue that let in `news` after `keys`. */
  ghost predicate Lined<K(!new)>(queue: seq<K>, keys: seq<K>, asked: set<K>, news: seq<K>, p: nat) {
    NewsFirst(queue, news) && KeysNext(queue, keys, |news|, p) && AskedLast(queue, keys, asked, |news|, p)
  }

  /** From the `p`-th key on, a flag is set exactly for the keys that were asked for. */
  ghost predicate Flagged<K(!new), V>(c: Cache<K, V>, keys: seq<K>, asked: set<K>, p: nat) {
    forall i :: p <= i < |keys| ==> keys[i] in c.store && (c.store[keys[i]].visited <==> keys[i] in asked)
  }

  /** The cache meanwhile, with the hand on the `p`-th key. */
  ghost predicate Midway<K(!new), V>(c: Cache<K, V>, keys: seq<K>, asked: set<K>, news: seq<K>, p: nat) {
    && Valid(c) && |c.queue| == c.capacity && Lined(c.queue, keys, asked, news, p) && Flagged(c, keys, asked, p)
    && (p < |keys| ==> Start(c) == |news| + |keys| - 1 - p)
  }

  ghost predicate FirstLeft<K(!new)>(keys: seq<K>, asked: set<K>, p: nat, j: nat) {
    p <= j < |keys| && keys[j] !in asked && forall i :: p <= i < j ==> keys[i] in asked
  }

  /** The stretch of the queue that holds the keys from `a` to `b`, exclusive. */
  lemma LinedStretch<K(!new)>(queue: seq<K>, keys: seq<K>, asked: set<K>, news: seq<K>, p: nat, a: nat, b: nat, k: K)
    requires Lined(queue, keys, asked, news, p) && p <= a <= b <= |keys|
    ensures k in queue[|news| + |keys| - b..|news| + |keys| - a] <==> k in keys[a..b]
  {
    var end := |news| + |keys|;
    var kept := queue[end - b..end - a];
    if k in keys[a..b] {
      var i :| 0 <= i < b - a && keys[a..b][i] == k;
      assert queue[end - 1 - (a + i)] == keys[a + i];
      assert kept[b - 1 - (a + i)] == k;
    }
    if k in kept {
      var i :| 0 <= i < b - a && kept[i] == k;
      var h := b - 1 - i;
      assert queue[end - 1 - h] == keys[h] && keys[a..b][h - a] == k;
    }
  }

  lemma LinedBack<K(!new)>(queue: seq<K>, keys: seq<K>, asked: set<K>, news: seq<K>, p: nat, j: nat, k: K)
    requires Lined(queue, keys, asked, news, p) && FirstLeft(keys, asked, p, j)
    ensures k in queue[|news| + |keys| - j..] <==> k in keys[..j + 1] && k in asked
  {
    LinedStretch(queue, keys, asked, news, p, p, j, k);
    LinedSizes(queue, keys, asked, news, p, k);
    hide Lined;
    var end := |news| + |keys|;
    assert queue[end - j..] == queue[end - j..end - p] + queue[end - p..];
    assert keys[..j + 1] == keys[..p] + keys[p..j] + [keys[j]];
    assert k in keys[p..j] ==> k in asked;
  }

  /** The queue after a new key came in for the key at place `j`. */
  ghost function Swapped<K(!new)>(queue: seq<K>, v: nat, k: K): seq<K>
    requires v < |queue|
  {
    [k] + (queue[..v] + queue[v + 1..])
  }

  lemma SwappedFront<K(!new)>(queue: seq<K>, news: seq<K>, v: nat, k: K)
    requires NewsFirst(queue, news) && |news| <= v < |queue|
    ensures NewsFirst(Swapped(queue, v, k), news + [k])
  {
    var after, more := Swapped(queue, v, k), news + [k];
    forall i | 0 <= i < |more|
      ensures after[i] == more[|more| - 1 - i]
    {
      if i > 0 {
        assert queue[i - 1] == news[|news| - 1 - (i - 1)];
      }
    }
  }

  lemma SwappedKeys<K(!new)>(queue: seq<K>, keys: seq<K>, m: nat, p: nat, j: nat, k: K)
    requires KeysNext(queue, keys, m, p) && p <= j < |keys|
    ensures KeysNext(Swapped(queue, m + |keys| - 1 - j, k), keys, m + 1, j + 1)
  {
    var n, after := |keys|, Swapped(queue, m + |keys| - 1 - j, k);
    forall i | j + 1 <= i < n
      ensures after[m + 1 + n - 1 - i] == keys[i]
    {
      assert queue[m + n - 1 - i] == keys[i];
    }
  }

  lemma SwappedTail<K(!new)>(queue: seq<K>, v: nat, k: K)
    requires v < |queue|
    ensures |Swapped(queue, v, k)| == |queue| && Swapped(queue, v, k)[v + 1..] == queue[v + 1..]
  {
  }

  lemma SwappedBack<K(!new)>(queue: seq<K>, keys: seq<K>, asked: set<K>, news: seq<K>, p: nat, j: nat, k: K)
    requires Lined(queue, keys, asked, news, p) && FirstLeft(keys, asked, p, j)
    ensures |news| + |keys| - 1 - j < |queue| && AskedLast(Swapped(queue, |news| + |keys| - 1 - j, k), keys, asked, |news| + 1, j + 1)
  {
    var v := |news| + |keys| - 1 - j;
    LinedSizes(queue, keys, asked, news, p, k);
    var after, from := Swapped(queue, v, k), |news| + 1 + |keys| - (j + 1);
    SwappedTail(queue, v, k);
    assert from == v + 1 && from <= |after|;
    hide Lined, Swapped, FirstLeft;
    forall x
      ensures x in after[from..] <==> x in keys[..j + 1] && x in asked
    {
      LinedBack(queue, keys, asked, news, p, j, x);
    }
  }

  lemma LinedNext<K(!new)>(queue: seq<K>, keys: seq<K>, asked: set<K>, news: seq<K>, p: nat, j: nat, k: K)
    requires Lined(queue, keys, asked, news, p) && FirstLeft(keys, asked, p, j)
    ensures var v := |news| + |keys| - 1 - j; v < |queue| && Lined([k] + (queue[..v] + queue[v + 1..]), keys, asked, news + [k], j + 1)
  {
    hide NewsFirst, KeysNext, AskedLast;
    LinedSizes(queue, keys, asked, news, p, k);
    var v := |news| + |keys| - 1 - j;
    SwappedFront(queue, news, v, k);
    SwappedKeys(queue, keys, |news|, p, j, k);
    SwappedBack(queue, keys, asked, news, p, j, k);
  }

  lemma NextStop<K(!new), V>(c: Cache<K, V>, keys: seq<K>, asked: set<K>, news: seq<K>, p: nat, j: nat)
    requires Midway(c, keys, asked, news, p) && FirstLeft(keys, asked, p, j)
    ensures StopsAt(c, |news| + |keys| - 1 - j)
  {
    hide Valid;
    var n, m := |keys|, |news|;
    forall i | m + n - 1 - j < i <= m + n - 1 - p
      ensures c.queue[i] in c.store && c.store[c.queue[i]].visited
    {
      var h := m + n - 1 - i;
      assert c.queue[m + n - 1 - h] == keys[h];
    }
    assert c.queue[m + n - 1 - j] == keys[j];
  }

  /** A put that evicts the key at `at`: the queue, the hand, and the flags in front of it. */
  lemma PutAt<K(!new), V>(c: Cache<K, V>, at: nat, k: K, v: V)
    requires StopsAt(c, at) && |c.queue| == c.capacity && k !in c.store
    ensures at < |c.queue| && AfterPut(c, k, v).queue == [k] + (c.queue[..at] + c.queue[at + 1..])
    ensures AfterPut(c, k, v).hand == (if at == 0 then None else Some(c.queue[at - 1])) && AfterPut(c, k, v).capacity == c.capacity
    ensures forall i :: 0 <= i < at ==> c.queue[i] in c.store && c.queue[i] in AfterPut(c, k, v).store
    ensures forall i :: 0 <= i < at ==> (AfterPut(c, k, v).store[c.queue[i]].visited <==> c.store[c.queue[i]].visited)
  {
    EvictAt(c, at);
    assert k !in c.queue;
    forall i | 0 <= i < at
      ensures c.queue[i] in c.store && c.queue[i] in AfterEvict(c).store
      ensures AfterEvict(c).store[c.queue[i]].visited <==> c.store[c.queue[i]].visited
    {
      EvictFlags(c, at, i);
    }
    hide AfterEvict, Start;
  }

  lemma HandAt<K(!new), V>(c: Cache<K, V>, i: nat)
    requires Valid(c) && i < |c.queue| && c.hand == Some(c.queue[i])
    ensures Start(c) == i
  {
    IndexIs(c.queue, i);
  }

  /** A new key takes the place of the oldest key nobody asked for, and the hand goes on from there. */
  lemma MidwayNext<K(!new), V>(c: Cache<K, V>, keys: seq<K>, asked: set<K>, news: seq<K>, p: nat, j: nat, k: K, v: V)
    requires Midway(c, keys, asked, news, p) && FirstLeft(keys, asked, p, j) && k !in c.store
    ensures Midway(AfterPut(c, k, v), keys, asked, news + [k], j + 1)
  {
    hide StopsAt, Start, AfterPut, Valid;
    var n, m := |keys|, |news|;
    var at := m + n - 1 - j;
    NextStop(c, keys, asked, news, p, j);
    PutAt(c, at, k, v);
    PutKeepsValid(c, k, v);
    LinedNext(c.queue, keys, asked, news, p, j, k);
    var c' := AfterPut(c, k, v);
    forall i | j < i < n
      ensures keys[i] in c'.store && (c'.store[keys[i]].visited <==> keys[i] in asked)
    {
      assert c.queue[m + n - 1 - i] == keys[i];
    }
    if j + 1 < n {
      assert c'.queue[at] == c.queue[at - 1];
      HandAt(c', at);
    }
  }

  // ----- The run -----

  ghost predicate AllGets<K(!new), V>(ops: seq<Op<K, V>>) {
    forall i :: 0 <= i < |ops| ==> ops[i].GetOp?
  }

  ghost function AskedFor<K(!new), V>(gets: seq<Op<K, V>>): set<K> {
    set k | k in KeysOf(gets)
  }

  lemma AskedMore<K(!new), V>(gets: seq<Op<K, V>>)
    requires gets != []
    ensures AskedFor(gets) == AskedFor(gets[..|gets| - 1]) + {gets[|gets| - 1].key}
  {
    var n := |gets| - 1;
    assert KeysOf(gets) == KeysOf(gets[..n]) + [gets[n].key];
  }

  lemma NothingAsked<K(!new), V>()
    ensures AskedFor<K, V>([]) == {}
  {
  }

  /** After the puts and the requests. */
  lemma {:induction false} Filled<K(!new), V>(capacity: int, fills: seq<Op<K, V>>, gets: seq<Op<K, V>>)
    requires AllPuts(fills) && |fills| == Room(capacity) && AllGets(gets)
    ensures Midway(Run(capacity, fills + gets), KeysOf(fills), AskedFor(gets), [], 0) && |Run(capacity, fills + gets).queue| == |fills|
  {
    hide Midway, AllPuts, Run, AskedFor, KeysOf, AfterGet, AfterPut;
    if gets == [] {
      assert fills + gets == fills;
      FilledFresh(capacity, fills);
      NothingAsked<K, V>();
    } else {
      var n := |gets| - 1;
      var c, k := Run(capacity, fills + gets[..n]), gets[n].key;
      Filled(capacity, fills, gets[..n]);
      RunLast(capacity, fills, gets);
      AskedMore(gets);
      SameLength(fills);
      GetFlags(c, k);
      MidwayGet(c, KeysOf(fills), AskedFor(gets[..n]), k);
    }
  }

  /** Before anything new comes in, the queue is the keys, newest first. */
  lemma LinedStart<K(!new)>(queue: seq<K>, keys: seq<K>, asked: set<K>)
    requires |queue| == |keys| && forall i :: 0 <= i < |keys| ==> queue[i] == keys[|keys| - 1 - i]
    ensures Lined(queue, keys, asked, [], 0)
  {
    var n := |keys|;
    assert queue[n..] == [] && keys[..0] == [];
    forall i | 0 <= i < n
      ensures queue[n - 1 - i] == keys[i]
    {
      assert queue[n - 1 - i] == keys[n - 1 - (n - 1 - i)];
    }
  }

  lemma LinedAtStart<K(!new)>(queue: seq<K>, keys: seq<K>, asked: set<K>)
    requires Lined(queue, keys, asked, [], 0) && |queue| == |keys|
    ensures forall i :: 0 <= i < |keys| ==> queue[i] == keys[|keys| - 1 - i]
  {
    var n := |keys|;
    forall i | 0 <= i < n
      ensures queue[i] == keys[n - 1 - i]
    {
      assert queue[n - 1 - (n - 1 - i)] == keys[n - 1 - i];
    }
  }

  lemma FreshFlag<K(!new), V>(c: Cache<K, V>, i: nat)
    requires Valid(c) && Fresh(c) && i < |c.queue|
    ensures c.queue[i] in c.store && !c.store[c.queue[i]].visited
  {
  }

  lemma FreshFlags<K(!new), V>(c: Cache<K, V>, keys: seq<K>)
    requires Valid(c) && Fresh(c) && |c.queue| == |keys| && forall i :: 0 <= i < |keys| ==> c.queue[i] == keys[|keys| - 1 - i]
    ensures Flagged(c, keys, {}, 0)
  {
    hide Valid, Fresh;
    var n := |keys|;
    forall i | 0 <= i < n
      ensures keys[i] in c.store && !c.store[keys[i]].visited
    {
      assert c.queue[n - 1 - i] == keys[n - 1 - (n - 1 - i)];
      FreshFlag(c, n - 1 - i);
    }
  }

  lemma FilledFresh<K(!new), V>(capacity: int, fills: seq<Op<K, V>>)
    requires AllPuts(fills) && |fills| == Room(capacity)
    ensures Midway(Run(capacity, fills), KeysOf(fills), {}, [], 0) && |Run(capacity, fills).queue| == |fills|
  {
    hide Run, Valid, Fresh, Start, Lined, AllPuts, Flagged;
    OldestFirst(capacity, fills);
    var c, keys := Run(capacity, fills), KeysOf(fills);
    assert forall i :: 0 <= i < |keys| ==> c.queue[i] == keys[|keys| - 1 - i];
    LinedStart(c.queue, keys, {});
    FreshFlags(c, keys);
    FreshStarts(c);
  }

  lemma GetFlags<K(!new), V>(c: Cache<K, V>, k: K)
    ensures AfterGet(c, k).0.queue == c.queue && AfterGet(c, k).0.hand == c.hand && AfterGet(c, k).0.capacity == c.capacity
    ensures forall x :: x in c.store ==> x in AfterGet(c, k).0.store && (AfterGet(c, k).0.store[x].visited <==> c.store[x].visited || x == k)
  {
  }

  lemma GetFlagged<K(!new), V>(c: Cache<K, V>, keys: seq<K>, asked: set<K>, k: K)
    requires Flagged(c, keys, asked, 0)
    ensures Flagged(AfterGet(c, k).0, keys, asked + {k}, 0)
  {
    hide AfterGet;
    GetFlags(c, k);
  }

  lemma MidwayGet<K(!new), V>(c: Cache<K, V>, keys: seq<K>, asked: set<K>, k: K)
    requires Midway(c, keys, asked, [], 0) && |c.queue| == |keys|
    ensures Midway(AfterGet(c, k).0, keys, asked + {k}, [], 0)
  {
    hide Lined, AfterGet, Valid, Flagged, IndexOf;
    GetKeepsValid(c, k);
    GetFlags(c, k);
    GetFlagged(c, keys, asked, k);
    LinedAtStart(c.queue, keys, asked);
    LinedStart(c.queue, keys, asked + {k});
  }

  /** The next key nobody asked for, and the keys before it. */
  lemma NextLeft<K(!new)>(keys: seq<K>, asked: set<K>, p: nat) returns (j: nat)
    requires p <= |keys| && |Left(keys[..p], asked)| < |Left(keys, asked)|
    ensures FirstLeft(keys, asked, p, j) && Left(keys[..j + 1], asked) == Left(keys[..p], asked) + [keys[j]]
  {
    j := p;
    while j < |keys| && keys[j] in asked
      invariant p <= j <= |keys| && Left(keys[..j], asked) == Left(keys[..p], asked) && forall i :: p <= i < j ==> keys[i] in asked
    {
      assert keys[..j + 1][..j] == keys[..j];
      j := j + 1;
    }
    assert keys[..|keys|] == keys;
    assert keys[..j + 1][..j] == keys[..j];
  }

  ghost predicate NewKeys<K(!new), V>(fills: seq<Op<K, V>>, news: seq<Op<K, V>>) {
    AllPuts(news) && forall i, j :: 0 <= i < |fills| && 0 <= j < |news| ==> fills[i].key != news[j].key
  }

  lemma RunLast<K(!new), V>(capacity: int, ops: seq<Op<K, V>>, more: seq<Op<K, V>>)
    requires more != []
    ensures Run(capacity, ops + more) == Apply(Run(capacity, ops + more[..|more| - 1]), more[|more| - 1])
  {
    var n := |more| - 1;
    assert ops + more == (ops + more[..n]) + [more[n]];
    RunMore(capacity, ops + more[..n], more[n]);
  }

  lemma NewKeysFront<K(!new), V>(fills: seq<Op<K, V>>, news: seq<Op<K, V>>)
    requires NewKeys(fills, news) && news != []
    ensures var n := |news| - 1;
            && NewKeys(fills, news[..n]) && news[n].PutOp? && KeysOf(news) == KeysOf(news[..n]) + [news[n].key]
            && news[n].key !in KeysOf(fills) && news[n].key !in KeysOf(news[..n])
  {
  }

  lemma {:induction false} LetsIn<K(!new), V>(capacity: int, fills: seq<Op<K, V>>, gets: seq<Op<K, V>>, news: seq<Op<K, V>>) returns (p: nat)
    requires AllPuts(fills) && |fills| == Room(capacity) && AllGets(gets) && NewKeys(fills, news)
    requires |news| <= |Left(KeysOf(fills), AskedFor(gets))|
    ensures Midway(Run(capacity, fills + gets + news), KeysOf(fills), AskedFor(gets), KeysOf(news), p)
    ensures p <= |fills| && |Left(KeysOf(fills)[..p], AskedFor(gets))| == |news|
  {
    hide Midway, AskedFor, AllPuts, AllGets, NewKeys, Run, AfterPut;
    var keys, asked := KeysOf(fills), AskedFor(gets);
    if news == [] {
      assert fills + gets + news == fills + gets && KeysOf(news) == [];
      Filled(capacity, fills, gets);
      p := 0;
    } else {
      hide Left, KeysOf;
      var n := |news| - 1;
      var c, op := Run(capacity, fills + gets + news[..n]), news[n];
      NewKeysFront(fills, news);
      p := LetsIn(capacity, fills, gets, news[..n]);
      SameLength(fills);
      var j := NextLeft(keys, asked, p);
      RunLast(capacity, fills + gets, news);
      NotMidway(c, keys, asked, KeysOf(news[..n]), p, op.key);
      MidwayNext(c, keys, asked, KeysOf(news[..n]), p, j, op.key, op.value);
      p := j + 1;
    }
  }

  lemma SameLength<K(!new), V>(ops: seq<Op<K, V>>)
    ensures |KeysOf(ops)| == |ops|
  {
  }

  lemma LinedNew<K(!new)>(queue: seq<K>, keys: seq<K>, asked: set<K>, news: seq<K>, p: nat, k: K)
    requires Lined(queue, keys, asked, news, p)
    ensures k in queue[..|news|] <==> k in news
  {
    var m := |news|;
    if k in news {
      var i :| 0 <= i < m && news[i] == k;
      assert queue[m - 1 - i] == news[m - 1 - (m - 1 - i)];
      assert queue[..m][m - 1 - i] == k;
    }
  }

  lemma LinedKept<K(!new)>(queue: seq<K>, keys: seq<K>, asked: set<K>, news: seq<K>, p: nat, k: K)
    requires Lined(queue, keys, asked, news, p)
    ensures k in queue[|news|..|news| + |keys| - p] <==> k in keys[p..]
  {
    LinedStretch(queue, keys, asked, news, p, p, |keys|, k);
    assert keys[p..|keys|] == keys[p..];
  }

  lemma LinedHolds<K(!new)>(queue: seq<K>, keys: seq<K>, asked: set<K>, news: seq<K>, p: nat, k: K)
    requires Lined(queue, keys, asked, news, p)
    ensures p <= |keys| && (k in queue <==> k in news || k in keys[p..] || (k in keys[..p] && k in asked))
  {
    LinedNew(queue, keys, asked, news, p, k);
    LinedKept(queue, keys, asked, news, p, k);
    LinedSizes(queue, keys, asked, news, p, k);
    hide Lined;
    var n, m := |keys|, |news|;
    assert queue == queue[..m] + queue[m..m + n - p] + queue[m + n - p..];
  }

  lemma LinedSizes<K(!new)>(queue: seq<K>, keys: seq<K>, asked: set<K>, news: seq<K>, p: nat, k: K)
    requires Lined(queue, keys, asked, news, p)
    ensures p <= |keys| && |news| + |keys| - p <= |queue|
    ensures k in queue[|news| + |keys| - p..] <==> k in keys[..p] && k in asked
  {
  }

  /** What is stored meanwhile. */
  lemma MidwayHolds<K(!new), V>(c: Cache<K, V>, keys: seq<K>, asked: set<K>, news: seq<K>, p: nat, k: K)
    requires Midway(c, keys, asked, news, p)
    ensures p <= |keys| && (k in c.store <==> k in news || k in keys[p..] || (k in keys[..p] && k in asked))
  {
    hide Lined, Flagged, Start;
    LinedHolds(c.queue, keys, asked, news, p, k);
  }

  lemma NotMidway<K(!new), V>(c: Cache<K, V>, keys: seq<K>, asked: set<K>, news: seq<K>, p: nat, k: K)
    requires Midway(c, keys, asked, news, p) && k !in keys && k !in news
    ensures k !in c.store
  {
    MidwayHolds(c, keys, asked, news, p, k);
  }

  /**
   * Fill the cache, ask for some of the keys, then put new keys, as many as there are keys nobody asked for, or fewer. The new
   * keys replace the oldest keys nobody asked for, one by one; everything else stays.
   */
  lemma AskedOutliveTheRest<K(!new), V>(capacity: int, fills: seq<Op<K, V>>, gets: seq<Op<K, V>>, news: seq<Op<K, V>>, k: K)
    requires AllPuts(fills) && |fills| == Room(capacity) && AllGets(gets) && NewKeys(fills, news)
    requires |news| <= |Left(KeysOf(fills), AskedFor(gets))|
    ensures k in Run(capacity, fills + gets + news).store <==>
            k in KeysOf(news) || (k in KeysOf(fills) && k !in Left(KeysOf(fills), AskedFor(gets))[..|news|])
  {
    hide Run, Left, AskedFor, Midway, AllPuts, AllGets, NewKeys;
    var keys, asked := KeysOf(fills), AskedFor(gets);
    var p := LetsIn(capacity, fills, gets, news);
    MidwayHolds(Run(capacity, fills + gets + news), keys, asked, KeysOf(news), p, k);
    LeftPrefix(keys, asked, p);
    LeftIs(keys[..p], asked);
    OnOneSide(fills, p, k);
  }

  lemma OnOneSide<K(!new), V>(fills: seq<Op<K, V>>, p: nat, k: K)
    requires AllPuts(fills) && p <= |fills|
    ensures var keys := KeysOf(fills);
            && (k in keys <==> k in keys[..p] || k in keys[p..])
            && (k in keys[..p] ==> k !in keys[p..])
  {
    var keys := KeysOf(fills);
    assert keys == keys[..p] + keys[p..];
  }

  // ----- A request before the last eviction still counts -----

  ghost function FirstThree(): seq<Op<nat, nat>> {
    [PutOp(0, 0), PutOp(1, 0), PutOp(2, 0)]
  }

  ghost function TwoRequests(): seq<Op<nat, nat>> {
    [GetOp(1), GetOp(2)]
  }

  /** Three keys, requests for the second and the third, a fourth key, and requests for the second and the fourth. */
  ghost function EightOps(): seq<Op<nat, nat>> {
    FirstThree() + TwoRequests() + [PutOp(3, 0)] + [GetOp(1)] + [GetOp(3)]
  }

  lemma Shapes()
    ensures AllPuts(FirstThree()) && AllGets(TwoRequests()) && KeysOf(FirstThree()) == [0, 1, 2] && |FirstThree()| == Room(3)
    ensures AskedFor(TwoRequests()) == {1, 2} && FirstLeft<nat>([0, 1, 2], {1, 2}, 0, 0)
  {
    assert KeysOf(TwoRequests()) == [1, 2];
  }

  lemma AfterFive() returns (c: Cache<nat, nat>)
    ensures c == Run(3, FirstThree() + TwoRequests()) && Midway(c, [0, 1, 2], {1, 2}, [], 0)
  {
    hide Midway, Run, AllPuts, AllGets, KeysOf, AskedFor, FirstThree, TwoRequests, FirstLeft;
    Shapes();
    Filled(3, FirstThree(), TwoRequests());
    c := Run(3, FirstThree() + TwoRequests());
  }

  lemma AfterFourth() returns (c: Cache<nat, nat>)
    ensures c == Run(3, FirstThree() + TwoRequests() + [PutOp(3, 0)]) && Midway(c, [0, 1, 2], {1, 2}, [3], 1)
  {
    hide Midway, Run, AllPuts, AllGets, KeysOf, AskedFor, FirstThree, TwoRequests, FirstLeft, AfterPut;
    Shapes();
    var b := AfterFive();
    NotMidway(b, [0, 1, 2], {1, 2}, [], 0, 3);
    MidwayNext(b, [0, 1, 2], {1, 2}, [], 0, 0, 3, 0);
    assert [] + [3] == [3];
    RunMore(3, FirstThree() + TwoRequests(), PutOp(3, 0));
    c := Run(3, FirstThree() + TwoRequests() + [PutOp(3, 0)]);
  }

  ghost predicate Rest<V>(c: Cache<nat, V>) {
    Valid(c) && c.capacity == 3 && c.queue == [3, 2, 1] && Start(c) == 2 && c.store.Keys == {1, 2, 3}
  }

  /** After the fourth key came in: what is stored, and which flags are set. */
  lemma FourthState(c: Cache<nat, nat>)
    requires Midway(c, [0, 1, 2], {1, 2}, [3], 1) && c.capacity == 3
    ensures Rest(c) && c.store[1].visited && c.store[2].visited
  {
    var keys, news: seq<nat> := [0, 1, 2], [3];
    assert c.queue[1 + 3 - 1 - 1] == keys[1] && c.queue[1 + 3 - 1 - 2] == keys[2] && c.queue[0] == news[0];
    assert c.queue == [3, 2, 1];
  }

  lemma RestGet(c: Cache<nat, nat>, k: nat)
    requires Rest(c)
    ensures Rest(AfterGet(c, k).0) && forall x :: x in {1, 2, 3} ==> (AfterGet(c, k).0.store[x].visited <==> c.store[x].visited || x == k)
  {
    GetKeepsValid(c, k);
    GetFlags(c, k);
    hide AfterGet, Valid;
  }

  lemma RestBoth(c: Cache<nat, nat>)
    requires Rest(c) && c.store[1].visited && c.store[2].visited
    ensures var d := AfterGet(AfterGet(c, 1).0, 3).0; Rest(d) && d.store[1].visited && d.store[2].visited && d.store[3].visited
  {
    hide AfterGet, Valid, Start;
    RestGet(c, 1);
    RestGet(AfterGet(c, 1).0, 3);
  }

  lemma EightState() returns (c: Cache<nat, nat>)
    ensures c == Run(3, EightOps()) && Rest(c) && c.store[1].visited && c.store[2].visited && c.store[3].visited
  {
    var six := FirstThree() + TwoRequests() + [PutOp(3, 0)];
    hide *;
    RunCapacity(3, six);
    c := AfterFourth();
    FourthState(c);
    RestBoth(c);
    EightRun(c);
    c := Run(3, EightOps());
  }

  lemma EightRun(c: Cache<nat, nat>)
    requires c == Run(3, FirstThree() + TwoRequests() + [PutOp(3, 0)])
    ensures Run(3, EightOps()) == AfterGet(AfterGet(c, 1).0, 3).0
  {
    hide FirstThree, TwoRequests, Run, AfterGet;
    var six := FirstThree() + TwoRequests() + [PutOp(3, 0)];
    RunMore(3, six, GetOp(1));
    RunMore(3, six + [GetOp(1)], GetOp(3));
  }

  lemma EightPrefixes()
    ensures |EightOps()| == 8 && EightOps()[..5] == FirstThree() + TwoRequests()
    ensures EightOps()[..6] == FirstThree() + TwoRequests() + [PutOp(3, 0)]
    ensures EightOps()[5] == PutOp(3, 0) && EightOps()[6] == GetOp(1) && EightOps()[7] == GetOp(3)
  {
  }

  lemma MidwayFull<K(!new), V>(c: Cache<K, V>, keys: seq<K>, asked: set<K>, news: seq<K>, p: nat)
    requires Midway(c, keys, asked, news, p)
    ensures |c.store| == c.capacity
  {
  }

  lemma FifthEvicts()
    ensures Evicts(3, EightOps(), 5)
  {
    hide Run, FirstThree, TwoRequests, Midway, EightOps;
    EightPrefixes();
    var b := AfterFive();
    NotMidway(b, [0, 1, 2], {1, 2}, [], 0, 3);
    MidwayFull(b, [0, 1, 2], {1, 2}, [], 0);
  }

  lemma SecondIsLate()
    ensures AskedLately(3, EightOps(), 1)
  {
    hide Run, FirstThree, TwoRequests, EightOps, Midway;
    EightPrefixes();
    var c := AfterFourth();
    RunCapacity(3, EightOps()[..6]);
    FourthState(c);
    assert Asks(3, EightOps(), 6, 1);
    assert NotSince(3, EightOps(), 6, 1);
  }

  lemma ThirdIsNot()
    ensures !AskedLately(3, EightOps(), 2)
  {
    EightPrefixes();
    FifthEvicts();
    hide Run, FirstThree, TwoRequests, EightOps, Evicts, Enters;
    forall i: nat | Asks(3, EightOps(), i, 2)
      ensures !NotSince(3, EightOps(), i, 2)
    {
      assert i < 5;
    }
  }

  /**
   * A request made before the last eviction still counts when the sweep did not pass the key since: here the key `1` is asked
   * for after that eviction and the key `2` is not, and yet `1` is the one that goes.
   */
  lemma EarlierRequestsCount()
    ensures AskedLately(3, EightOps(), 1) && !AskedLately(3, EightOps(), 2)
    ensures Run(3, EightOps()).store.Keys == {1, 2, 3} && 1 !in Run(3, EightOps() + [PutOp(4, 0)]).store
  {
    hide AskedLately, EightOps, AfterPut, Run;
    SecondIsLate();
    ThirdIsNot();
    var c := EightState();
    RunMore(3, EightOps(), PutOp(4, 0));
    SparedIff(c, 1, 4, 0);
  }

  // ----- A delete does not disturb the sweep -----

  /** The keys in the order a sweep looks at them. */
  ghost function Sweep<K(!new), V>(c: Cache<K, V>): seq<K>
    requires Valid(c) && |c.queue| > 0
  {
    seq(|c.queue|, e requires 0 <= e < |c.queue| => c.queue[Hop(Start(c), e, |c.queue|)])
  }

  /** A sweep stops at the `d`-th key it looks at. */
  ghost predicate StopsAfter<K(!new), V>(c: Cache<K, V>, sweep: seq<K>, d: nat) {
    && (forall e :: 0 <= e < d < |sweep| ==> sweep[e] in c.store && c.store[sweep[e]].visited)
    && d < |sweep| && sweep[d] in c.store
    && (c.store[sweep[d]].visited ==> d == 0 && forall e :: 0 <= e < |sweep| ==> sweep[e] in c.store && c.store[sweep[e]].visited)
  }

  lemma VictimIsFirst<K(!new), V>(c: Cache<K, V>) returns (d: nat)
    requires Valid(c) && |c.queue| > 0
    ensures StopsAfter(c, Sweep(c), d) && Sweep(c)[d] == Victim(c)
  {
    var p, n := Start(c), |c.queue|;
    d := Hops(c, p, 0);
    if d == n {
      assert Hop(p, n, n) == p == Hop(p, 0, n);
      d := 0;
    }
  }

  lemma OneStop<K(!new), V>(c: Cache<K, V>, sweep: seq<K>, d: nat, d': nat)
    requires StopsAfter(c, sweep, d) && StopsAfter(c, sweep, d')
    ensures d == d'
  {
  }

  /** Where a sweep starts once the key at `i0` is gone. */
  function StartWithout(p: nat, n: nat, i0: nat): nat
    requires p < n && i0 < n && n > 1
  {
    if p > i0 then p - 1 else if p < i0 then p else if i0 == 0 then n - 2 else i0 - 1
  }

  lemma HopWithout(p: nat, n: nat, e0: nat, e: nat)
    requires p < n && n > 1 && e0 < n && e < n - 1
    ensures var i0, h := Hop(p, e0, n), Hop(p, if e < e0 then e else e + 1, n);
            h != i0 && Hop(StartWithout(p, n, i0), e, n - 1) == if h < i0 then h else h - 1
  {
  }

  lemma DeleteShape<K(!new), V>(c: Cache<K, V>, k: K, i0: nat)
    requires Valid(c) && i0 < |c.queue| && c.queue[i0] == k
    ensures k in c.store && AfterDelete(c, k).queue == c.queue[..i0] + c.queue[i0 + 1..]
    ensures AfterDelete(c, k).hand == if c.hand != Some(k) then c.hand else if i0 == 0 then None else Some(c.queue[i0 - 1])
  {
    IndexIs(c.queue, i0);
  }

  lemma StartFacts<K(!new), V>(c: Cache<K, V>)
    requires Valid(c) && |c.queue| > 0
    ensures Start(c) < |c.queue| && if c.hand.Some? then c.queue[Start(c)] == c.hand.value else Start(c) == |c.queue| - 1
  {
  }

  lemma OnePlace<K(!new), V>(c: Cache<K, V>, i: nat, j: nat)
    requires Valid(c) && i < |c.queue| && j < |c.queue| && c.queue[i] == c.queue[j]
    ensures i == j
  {
  }

  lemma DeleteStart<K(!new), V>(c: Cache<K, V>, k: K, i0: nat)
    requires Valid(c) && Valid(AfterDelete(c, k)) && |c.queue| > 1 && i0 < |c.queue| && c.queue[i0] == k
    ensures AfterDelete(c, k).queue == c.queue[..i0] + c.queue[i0 + 1..]
    ensures Start(c) < |c.queue| && Start(AfterDelete(c, k)) == StartWithout(Start(c), |c.queue|, i0)
  {
    hide Valid, AfterDelete, Start;
    DeleteShape(c, k, i0);
    StartFacts(c);
    var c', p := AfterDelete(c, k), Start(c);
    StartFacts(c');
    if c.hand == Some(k) {
      OnePlace(c, p, i0);
    }
    if c'.hand.Some? {
      var p' := StartWithout(p, |c.queue|, i0);
      assert c'.queue[p'] == c'.hand.value;
      HandAt(c', p');
    }
  }

  /** Every key has its place in the sweep. */
  ghost function SweepPlace<K(!new), V>(c: Cache<K, V>, k: K): (e: nat)
    requires Valid(c) && k in c.store && |c.queue| > 0
    ensures e < |c.queue| && Sweep(c)[e] == k
  {
    var i, p, n := IndexOf(c.queue, k), Start(c), |c.queue|;
    var e := if i <= p then p - i else p + n - i;
    assert Hop(p, e, n) == i;
    e
  }

  lemma SweepPart<K(!new), V>(c: Cache<K, V>, c': Cache<K, V>, sweep: seq<K>, sweep': seq<K>, e0: nat, d: nat, d': nat)
    requires StopsAfter(c, sweep, d) && e0 < |sweep| && sweep[e0] != sweep[d] && d' == (if d < e0 then d else d - 1)
    requires sweep' == sweep[..e0] + sweep[e0 + 1..]
    requires forall e :: 0 <= e < |sweep'| ==> sweep'[e] in c'.store && (sweep'[e] in c.store ==> c'.store[sweep'[e]] == c.store[sweep'[e]])
    ensures StopsAfter(c', sweep', d') && sweep'[d'] == sweep[d]
  {
    assert forall e :: 0 <= e < |sweep'| ==> sweep'[e] == sweep[if e < e0 then e else e + 1];
  }

  lemma SweepAt<K(!new), V>(c: Cache<K, V>, e: nat)
    requires Valid(c) && e < |c.queue|
    ensures |Sweep(c)| == |c.queue| && Start(c) < |c.queue| && Hop(Start(c), e, |c.queue|) < |c.queue|
    ensures Sweep(c)[e] == c.queue[Hop(Start(c), e, |c.queue|)]
  {
  }

  lemma QueueWithout<K(!new)>(queue: seq<K>, p: nat, e0: nat, e: nat)
    requires p < |queue| && e0 < |queue| && e < |queue| - 1
    ensures var n, i0, f := |queue|, Hop(p, e0, |queue|), if e < e0 then e else e + 1;
            && i0 < n && Hop(p, f, n) < n && StartWithout(p, n, i0) < n - 1 && Hop(StartWithout(p, n, i0), e, n - 1) < n - 1
            && (queue[..i0] + queue[i0 + 1..])[Hop(StartWithout(p, n, i0), e, n - 1)] == queue[Hop(p, f, n)]
  {
    HopWithout(p, |queue|, e0, e);
  }

  lemma DeleteSweepAt<K(!new), V>(c: Cache<K, V>, k: K, e0: nat, e: nat)
    requires Valid(c) && k in c.store && e0 < |c.queue| && Sweep(c)[e0] == k && e < |c.queue| - 1
    ensures Valid(AfterDelete(c, k)) && e < |AfterDelete(c, k).queue| && Sweep(AfterDelete(c, k))[e] == Sweep(c)[if e < e0 then e else e + 1]
  {
    hide AfterDelete, Start, Sweep, StartWithout, Hop, Distinct, IndexOf, Prev, Without;
    DeleteKeepsValid(c, k);
    SweepAt(c, e0);
    DeleteStart(c, k, Hop(Start(c), e0, |c.queue|));
    SweepAt(c, if e < e0 then e else e + 1);
    SweepAt(AfterDelete(c, k), e);
    QueueWithout(c.queue, Start(c), e0, e);
  }

  /** Taking a key out takes it out of the sweep. */
  lemma DeleteSweep<K(!new), V>(c: Cache<K, V>, k: K, e0: nat)
    requires Valid(c) && |c.queue| > 1 && e0 < |c.queue| && Sweep(c)[e0] == k
    ensures Valid(AfterDelete(c, k)) && |AfterDelete(c, k).queue| == |c.queue| - 1
    ensures Sweep(AfterDelete(c, k)) == Sweep(c)[..e0] + Sweep(c)[e0 + 1..]
  {
    hide AfterDelete, Start, Sweep, Hop;
    DeleteKeepsValid(c, k);
    SweepAt(c, e0);
    DeleteShape(c, k, Hop(Start(c), e0, |c.queue|));
    SweepAt(AfterDelete(c, k), 0);
    var left := Sweep(c)[..e0] + Sweep(c)[e0 + 1..];
    forall e | 0 <= e < |c.queue| - 1
      ensures Sweep(AfterDelete(c, k))[e] == left[e]
    {
      DeleteSweepAt(c, k, e0, e);
    }
  }

  lemma TwoKeys<K(!new), V>(c: Cache<K, V>, a: K, b: K)
    requires Valid(c) && a in c.store && b in c.queue && a != b
    ensures |c.queue| > 1
  {
  }

  lemma SweptAreStored<K(!new), V>(c: Cache<K, V>)
    requires Valid(c) && |c.queue| > 0
    ensures forall e :: 0 <= e < |Sweep(c)| ==> Sweep(c)[e] in c.store
  {
  }

  /** A delete of another key leaves the choice of the next sweep as it was. */
  lemma DeleteKeepsVictim<K(!new), V>(c: Cache<K, V>, k: K)
    requires Valid(c) && |c.queue| > 0 && k in c.store && Victim(c) != k
    ensures Valid(AfterDelete(c, k)) && |AfterDelete(c, k).queue| > 0 && Victim(AfterDelete(c, k)) == Victim(c)
  {
    hide AfterDelete, Sweep, Victim, Start, StopsAfter, AfterEvict, Distinct, IndexOf;
    EvictRemovesOne(c);
    TwoKeys(c, k, Victim(c));
    var d := VictimIsFirst(c);
    var e0 := SweepPlace(c, k);
    SweepAt(c, e0);
    DeleteSweep(c, k, e0);
    DeleteKeepsValid(c, k);
    var c' := AfterDelete(c, k);
    var sweep, sweep', d' := Sweep(c), Sweep(c'), if d < e0 then d else d - 1;
    hide Valid;
    SweptAreStored(c');
    SweepPart(c, c', sweep, sweep', e0, d, d');
    var f := VictimIsFirst(c');
    OneStop(c', sweep', d', f);
  }
}
