/** The SIEVE cache: a second-chance queue with a hand that remembers where the last sweep stopped. */
module SieveCache {
  import opened Optional
  import opened Sequences

  datatype Slot<+V> = Slot(value: V, visited: bool)

  /** The state a cache holds. `queue` runs from the most recently inserted key to the oldest one. */
  datatype Cache<K(==), V> = Cache(
    capacity: nat,
    store: map<K, Slot<V>>,
    queue: seq<K>,
    hand: Option<K>,
    size: int,
    hits: nat,
    misses: nat)

  /** Keys are queued once, exactly the stored ones; the size counter counts them; the hand rests on a queued key. */
  ghost predicate Valid<K(!new), V>(c: Cache<K, V>) {
    && Distinct(c.queue)
    && (forall k :: k in c.store <==> k in c.queue)
    && c.size == |c.queue| == |c.store|
    && 0 < c.capacity && |c.queue| <= c.capacity
    && (c.hand.Some? ==> c.hand.value in c.queue)
  }

  function IndexOf<K(==)>(queue: seq<K>, k: K): (i: nat)
    requires k in queue
    ensures i < |queue| && queue[i] == k && forall j :: 0 <= j < i ==> queue[j] != k
  {
    if queue[0] == k then 0 else 1 + IndexOf(queue[1..], k)
  }

  /** `Prev` of a list element: the neighbour towards the front, if any. */
  function Prev<K(==)>(queue: seq<K>, k: K): Option<K>
    requires k in queue
  {
    var i := IndexOf(queue, k);
    if i == 0 then None else Some(queue[i - 1])
  }

  function Without<K(==)>(queue: seq<K>, k: K): seq<K>
    requires k in queue
  {
    var i := IndexOf(queue, k);
    queue[..i] + queue[i + 1..]
  }

  function NewCache<K(==, !new), V>(capacity: int): Cache<K, V> {
    Cache(if capacity <= 0 then 1 else capacity, map[], [], None, 0, 0, 0)
  }

  function Remove<K(==, !new), V>(c: Cache<K, V>, k: K, hand: Option<K>): Cache<K, V>
    requires k in c.queue
  {
    c.(queue := Without(c.queue, k), store := c.store - {k}, hand := hand, size := c.size - 1)
  }

  // ----- Eviction, described without a loop -----

  /** The queue position `d` hops before position `p`, wrapping from the front to the back. */
  function Hop(p: nat, d: nat, n: nat): nat
    requires p < n && d <= n
  {
    if d <= p then p - d else p + n - d
  }

  /** Where a sweep starts. */
  function Start<K(==, !new), V>(c: Cache<K, V>): nat
    requires |c.queue| > 0 && (c.hand.Some? ==> c.hand.value in c.queue)
  {
    if c.hand.Some? then IndexOf(c.queue, c.hand.value) else |c.queue| - 1
  }

  ghost predicate Queued<K(!new), V>(c: Cache<K, V>) {
    forall i :: 0 <= i < |c.queue| ==> c.queue[i] in c.store
  }

  /** The number of hops to the first key that was not visited, all the way round if there is none. */
  ghost function Hops<K(!new), V>(c: Cache<K, V>, p: nat, d: nat): (r: nat)
    requires Queued(c) && p < |c.queue| && d <= |c.queue|
    ensures d <= r <= |c.queue|
    ensures forall e :: d <= e < r ==> c.store[c.queue[Hop(p, e, |c.queue|)]].visited
    ensures r < |c.queue| ==> !c.store[c.queue[Hop(p, r, |c.queue|)]].visited
    decreases |c.queue| - d
  {
    if d == |c.queue| || !c.store[c.queue[Hop(p, d, |c.queue|)]].visited then d else Hops(c, p, d + 1)
  }

  /** The store after the flags of the first `d` keys from `p` on were cleared. */
  ghost function Cleared<K(!new), V>(c: Cache<K, V>, p: nat, d: nat): map<K, Slot<V>>
    requires p < |c.queue| && d <= |c.queue|
  {
    map k | k in c.store ::
      if exists e :: 0 <= e < d && c.queue[Hop(p, e, |c.queue|)] == k then c.store[k].(visited := false) else c.store[k]
  }

  ghost function AfterEvict<K(!new), V>(c: Cache<K, V>): Cache<K, V>
    requires Queued(c) && |c.queue| > 0 && (c.hand.Some? ==> c.hand.value in c.queue)
  {
    var p := Start(c);
    var d := Hops(c, p, 0);
    var victim := c.queue[Hop(p, d, |c.queue|)];
    Remove(c.(store := Cleared(c, p, d)), victim, Prev(c.queue, victim))
  }

  ghost function Victim<K(!new), V>(c: Cache<K, V>): K
    requires Queued(c) && |c.queue| > 0 && (c.hand.Some? ==> c.hand.value in c.queue)
  {
    c.queue[Hop(Start(c), Hops(c, Start(c), 0), |c.queue|)]
  }

  // ----- The operations -----

  ghost function AfterPut<K(!new), V>(c: Cache<K, V>, k: K, v: V): Cache<K, V>
    requires Valid(c)
  {
    if k in c.store then c.(store := c.store[k := Slot(v, true)])
    else
      Insert(if |c.queue| >= c.capacity then AfterEvict(c) else c, k, v)
  }

  function Insert<K(==, !new), V>(c: Cache<K, V>, k: K, v: V): Cache<K, V> {
    c.(store := c.store[k := Slot(v, false)], queue := [k] + c.queue, size := c.size + 1)
  }

  function AfterGet<K(==, !new), V>(c: Cache<K, V>, k: K): (Cache<K, V>, Option<V>) {
    if k in c.store then
      (c.(store := c.store[k := c.store[k].(visited := true)], hits := c.hits + 1), Some(c.store[k].value))
    else
      (c.(misses := c.misses + 1), None)
  }

  function AfterDelete<K(==, !new), V>(c: Cache<K, V>, k: K): Cache<K, V>
    requires k in c.store ==> k in c.queue
  {
    if k in c.store then
      Remove(c, k, if c.hand == Some(k) then Prev(c.queue, k) else c.hand)
    else c
  }

  // ----- What the operations keep -----

  lemma WithoutFacts<K(!new)>(queue: seq<K>, k: K)
    requires Distinct(queue) && k in queue
    ensures Distinct(Without(queue, k)) && |Without(queue, k)| == |queue| - 1
    ensures forall x :: x in Without(queue, k) <==> x in queue && x != k
    ensures Prev(queue, k).Some? ==> Prev(queue, k).value in queue && Prev(queue, k).value != k
  {
    var i, w := IndexOf(queue, k), Without(queue, k);
    assert forall j :: 0 <= j < |w| ==> w[j] == if j < i then queue[j] else queue[j + 1];
    forall x | x in queue && x != k
      ensures x in w
    {
      var j :| 0 <= j < |queue| && queue[j] == x;
      assert x == w[if j < i then j else j - 1];
    }
  }

  lemma RemoveKeepsValid<K(!new), V>(c: Cache<K, V>, k: K, hand: Option<K>)
    requires Valid(c) && k in c.queue && (hand.Some? ==> hand.value in c.queue && hand.value != k)
    ensures Valid(Remove(c, k, hand))
  {
    WithoutFacts(c.queue, k);
    assert (c.store - {k}).Keys == c.store.Keys - {k};
    assert c.store == (c.store - {k})[k := c.store[k]];
  }

  lemma ClearedFacts<K(!new), V>(c: Cache<K, V>, p: nat, d: nat)
    requires p < |c.queue| && d <= |c.queue|
    ensures Cleared(c, p, d).Keys == c.store.Keys && |Cleared(c, p, d)| == |c.store|
    ensures forall k :: k in c.store ==> Cleared(c, p, d)[k].value == c.store[k].value
  {
    assert Cleared(c, p, d).Keys == c.store.Keys;
    assert |Cleared(c, p, d).Keys| == |c.store.Keys|;
  }

  /** Eviction removes exactly one entry, the victim, and changes no value. */
  lemma EvictRemovesOne<K(!new), V>(c: Cache<K, V>)
    requires Valid(c) && |c.queue| > 0
    ensures Valid(AfterEvict(c)) && |AfterEvict(c).queue| == |c.queue| - 1
    ensures Victim(c) in c.queue && forall k :: k in AfterEvict(c).store <==> k in c.store && k != Victim(c)
    ensures forall k :: k in AfterEvict(c).store ==> AfterEvict(c).store[k].value == c.store[k].value
  {
    var p := Start(c);
    var d := Hops(c, p, 0);
    ClearedFacts(c, p, d);
    WithoutFacts(c.queue, Victim(c));
    var swept := c.(store := Cleared(c, p, d));
    assert Valid(swept);
    RemoveKeepsValid(swept, Victim(c), Prev(c.queue, Victim(c)));
  }

  /** Second chance: a visited entry is evicted only when every entry was visited. */
  lemma VictimUnvisited<K(!new), V>(c: Cache<K, V>)
    requires Valid(c) && |c.queue| > 0 && c.store[Victim(c)].visited
    ensures forall k :: k in c.store ==> c.store[k].visited
  {
    var p, n := Start(c), |c.queue|;
    assert Hops(c, p, 0) == n;
    forall k | k in c.store
      ensures c.store[k].visited
    {
      var i := IndexOf(c.queue, k);
      var e := if i <= p then p - i else p + n - i;
      assert Hop(p, e, n) == i;
    }
  }

  lemma InsertKeepsValid<K(!new), V>(c: Cache<K, V>, k: K, v: V)
    requires Valid(c) && k !in c.store && |c.queue| < c.capacity
    ensures Valid(Insert(c, k, v))
  {
    assert Insert(c, k, v).store.Keys == c.store.Keys + {k};
    assert |Insert(c, k, v).store.Keys| == |c.store.Keys| + 1;
  }

  lemma UpdateKeepsValid<K(!new), V>(c: Cache<K, V>, k: K, slot: Slot<V>)
    requires Valid(c) && k in c.store
    ensures Valid(c.(store := c.store[k := slot]))
  {
    assert c.store[k := slot].Keys == c.store.Keys;
    assert |c.store[k := slot].Keys| == |c.store.Keys|;
  }

  /** After a put the key is stored with its value; other keys keep theirs or were evicted. */
  lemma PutKeepsValid<K(!new), V>(c: Cache<K, V>, k: K, v: V)
    requires Valid(c)
    ensures Valid(AfterPut(c, k, v)) && k in AfterPut(c, k, v).store && AfterPut(c, k, v).store[k].value == v
    ensures forall x :: x in AfterPut(c, k, v).store && x != k ==> x in c.store && AfterPut(c, k, v).store[x].value == c.store[x].value
  {
    if k in c.store {
      UpdateKeepsValid(c, k, Slot(v, true));
    } else if |c.queue| >= c.capacity {
      EvictRemovesOne(c);
      hide AfterEvict;
      InsertKeepsValid(AfterEvict(c), k, v);
    } else {
      InsertKeepsValid(c, k, v);
    }
  }

  lemma PutKeepsCapacity<K(!new), V>(c: Cache<K, V>, k: K, v: V)
    requires Valid(c)
    ensures AfterPut(c, k, v).capacity == c.capacity
  {
  }

  /** No entry was asked for since it was put, and the hand is not on the newest one. */
  ghost predicate Untouched<K(!new), V>(c: Cache<K, V>) {
    && (forall k :: k in c.store ==> !c.store[k].visited)
    && (c.hand.Some? ==> c.queue != [] && c.hand.value != c.queue[0])
  }

  /** Evicting from a full untouched cache of two or more entries spares the newest one. */
  lemma EvictSparesNewest<K(!new), V>(c: Cache<K, V>)
    requires Valid(c) && Untouched(c) && |c.queue| > 1
    ensures Victim(c) != c.queue[0]
    ensures forall k :: k in AfterEvict(c).store ==> !AfterEvict(c).store[k].visited
  {
    var p := Start(c);
    assert Hops(c, p, 0) == 0;
    assert Hop(p, 0, |c.queue|) == p;
    assert p > 0;
    EvictRemovesOne(c);
  }

  lemma InsertUntouched<K(!new), V>(c: Cache<K, V>, k: K, v: V)
    requires Valid(c) && k !in c.store && forall x :: x in c.store ==> !c.store[x].visited
    ensures Untouched(Insert(c, k, v)) && Insert(c, k, v).queue != [] && Insert(c, k, v).queue[0] == k
    ensures forall x :: x in c.store ==> x in Insert(c, k, v).store && Insert(c, k, v).store[x] == c.store[x]
  {
  }

  /** Putting a new key into an untouched cache with room for two leaves the newest entry before it alone. */
  lemma PutSparesNewest<K(!new), V>(c: Cache<K, V>, k: K, v: V)
    requires Valid(c) && Untouched(c) && c.capacity > 1 && k !in c.store
    ensures Untouched(AfterPut(c, k, v)) && AfterPut(c, k, v).queue != [] && AfterPut(c, k, v).queue[0] == k
    ensures c.queue != [] ==> c.queue[0] in AfterPut(c, k, v).store && AfterPut(c, k, v).store[c.queue[0]].value == c.store[c.queue[0]].value
  {
    if |c.queue| >= c.capacity {
      EvictRemovesOne(c);
      EvictSparesNewest(c);
      InsertUntouched(AfterEvict(c), k, v);
      hide AfterEvict, Insert, Untouched, Victim;
    } else {
      InsertUntouched(c, k, v);
      hide Insert;
    }
  }

  /** A cache of capacity one that holds `k` holds nothing else. */
  lemma OneEntry<K(!new), V>(c: Cache<K, V>, k: K)
    requires Valid(c) && c.capacity == 1 && k in c.store
    ensures forall x :: x in c.store ==> x == k
  {
    assert c.queue == [k];
  }

  lemma GetKeepsValid<K(!new), V>(c: Cache<K, V>, k: K)
    requires Valid(c)
    ensures Valid(AfterGet(c, k).0)
    ensures AfterGet(c, k).0.store.Keys == c.store.Keys && forall x :: x in c.store ==> AfterGet(c, k).0.store[x].value == c.store[x].value
    ensures forall x :: x in c.store ==> (AfterGet(c, k).0.store[x].visited <==> c.store[x].visited || x == k)
  {
    assert AfterGet(c, k).0.store.Keys == c.store.Keys;
    assert |AfterGet(c, k).0.store.Keys| == |c.store.Keys|;
  }

  lemma DeleteKeepsValid<K(!new), V>(c: Cache<K, V>, k: K)
    requires Valid(c)
    ensures Valid(AfterDelete(c, k))
    ensures forall x :: x in AfterDelete(c, k).store <==> x in c.store && x != k
    ensures forall x :: x in AfterDelete(c, k).store ==> AfterDelete(c, k).store[x] == c.store[x]
  {
    if k in c.store {
      WithoutFacts(c.queue, k);
      RemoveKeepsValid(c, k, if c.hand == Some(k) then Prev(c.queue, k) else c.hand);
    }
  }

  // ----- Runs -----

  datatype Op<K, V> = PutOp(key: K, value: V) | GetOp(key: K) | DeleteOp(key: K)

  ghost function Apply<K(!new), V>(c: Cache<K, V>, op: Op<K, V>): Cache<K, V>
    requires Valid(c)
  {
    match op
    case PutOp(k, v) => AfterPut(c, k, v)
    case GetOp(k) => AfterGet(c, k).0
    case DeleteOp(k) => AfterDelete(c, k)
  }

  lemma ApplyKeepsValid<K(!new), V>(c: Cache<K, V>, op: Op<K, V>)
    requires Valid(c)
    ensures Valid(Apply(c, op))
  {
    hide Valid, AfterPut, AfterGet, AfterDelete;
    match op
    case PutOp(k, v) => PutKeepsValid(c, k, v);
    case GetOp(k) => GetKeepsValid(c, k);
    case DeleteOp(k) => DeleteKeepsValid(c, k);
  }

  /** The state after a run of operations on a new cache. */
  ghost function Run<K(!new), V>(capacity: int, ops: seq<Op<K, V>>): (c: Cache<K, V>)
    ensures Valid(c)
  {
    if ops == [] then NewCache(capacity)
    else
      var c := Run(capacity, ops[..|ops| - 1]);
      ApplyKeepsValid(c, ops[|ops| - 1]);
      Apply(c, ops[|ops| - 1])
  }

  /** What a key stands for if nothing were ever evicted: the last value put and not deleted since. */
  ghost function LastPut<K, V>(ops: seq<Op<K, V>>, k: K): Option<V> {
    if ops == [] then None
    else
      match ops[|ops| - 1]
      case PutOp(key, v) => if key == k then Some(v) else LastPut(ops[..|ops| - 1], k)
      case GetOp(_) => LastPut(ops[..|ops| - 1], k)
      case DeleteOp(key) => if key == k then None else LastPut(ops[..|ops| - 1], k)
  }

  /** Over every run, a stored key holds exactly the value last put for it. */
  lemma {:induction false} RunHoldsLastPut<K(!new), V>(capacity: int, ops: seq<Op<K, V>>, k: K)
    requires k in Run(capacity, ops).store
    ensures LastPut(ops, k) == Some(Run(capacity, ops).store[k].value)
  {
    if ops != [] {
      var before, last := ops[..|ops| - 1], ops[|ops| - 1];
      var c := Run(capacity, before);
      match last {
        case PutOp(key, v) =>
          PutKeepsValid(c, key, v);
          if key != k {
            RunHoldsLastPut(capacity, before, k);
          }
        case GetOp(key) =>
          GetKeepsValid(c, key);
          RunHoldsLastPut(capacity, before, k);
        case DeleteOp(key) =>
          DeleteKeepsValid(c, key);
          RunHoldsLastPut(capacity, before, k);
      }
    }
  }

  /** A hit returns the last value put, over every run. */
  lemma HitReturnsLastPut<K(!new), V>(capacity: int, ops: seq<Op<K, V>>, k: K)
    ensures var (_, r) := AfterGet(Run(capacity, ops), k); r.Some? ==> r == LastPut(ops, k)
  {
    if k in Run(capacity, ops).store {
      RunHoldsLastPut(capacity, ops, k);
    }
  }

  // ----- The class -----

  class Sieve<K(==, !new), V> {
    const capacity: nat
    var store: map<K, Slot<V>>
    var queue: seq<K>
    var hand: Option<K>
    var size: int
    var hits: nat
    var misses: nat

    ghost function State(): Cache<K, V>
      reads this
    {
      Cache(capacity, store, queue, hand, size, hits, misses)
    }

    constructor (capacity: int)
      ensures State() == NewCache(capacity) && Valid(State())
    {
      this.capacity := if capacity <= 0 then 1 else capacity;
      store, queue, hand, size, hits, misses := map[], [], None, 0, 0, 0;
    }

    method Put(key: K, value: V)
      requires Valid(State())
      modifies this
      ensures State() == AfterPut(old(State()), key, value) && Valid(State())
    {
      PutKeepsValid(State(), key, value);
      if key in store {
        store := store[key := Slot(value, true)];
      } else {
        if |queue| >= capacity {
          Evict();
        }
        queue := [key] + queue;
        store := store[key := Slot(value, false)];
        size := size + 1;
      }
    }

    method Get(key: K) returns (r: Option<V>)
      requires Valid(State())
      modifies this
      ensures (State(), r) == AfterGet(old(State()), key) && Valid(State())
    {
      GetKeepsValid(State(), key);
      if key in store {
        hits := hits + 1;
        store := store[key := store[key].(visited := true)];
        return Some(store[key].value);
      }
      misses := misses + 1;
      r := None;
    }

    method Delete(key: K)
      requires Valid(State())
      modifies this
      ensures State() == AfterDelete(old(State()), key) && Valid(State())
    {
      DeleteKeepsValid(State(), key);
      if key in store {
        if hand == Some(key) {
          hand := Prev(queue, key);
        }
        RemoveEntry(key);
      }
    }

    method RemoveEntry(key: K)
      requires key in queue
      modifies this
      ensures State() == Remove(old(State()), key, old(hand))
    {
      queue := Without(queue, key);
      store := store - {key};
      size := size - 1;
    }

    method Evict()
      requires Valid(State()) && |queue| > 0
      modifies this
      ensures State() == AfterEvict(old(State()))
    {
      hide Cleared, Hops, Valid, Distinct;
      ghost var c := State();
      ghost var p := SweepStart(c);
      ghost var n, d := |queue|, 0;
      var cursor := if hand.Some? then hand.value else queue[|queue| - 1];
      while store[cursor].visited
        invariant d <= n && State() == c.(store := Cleared(c, p, d)) && cursor == c.queue[Hop(p, d, n)] && cursor in store
        invariant Hops(c, p, d) == Hops(c, p, 0)
        decreases n - d
      {
        StepCleared(c, p, d);
        store := store[cursor := store[cursor].(visited := false)];
        var previous := Prev(queue, cursor);
        cursor := if previous.Some? then previous.value else queue[|queue| - 1];
        d := d + 1;
      }
      SweepStops(c, p, d);
      hand := Prev(queue, cursor);
      RemoveEntry(cursor);
    }
  }

  lemma SweepStart<K(!new), V>(c: Cache<K, V>) returns (p: nat)
    requires Valid(c) && |c.queue| > 0
    ensures p == Start(c) && p < |c.queue| && Cleared(c, p, 0) == c.store && Queued(c)
    ensures c.queue[p] == if c.hand.Some? then c.hand.value else c.queue[|c.queue| - 1]
    ensures c.queue[p] in c.store
  {
    p := Start(c);
  }

  lemma HopDistinct<K(!new)>(queue: seq<K>, p: nat, d: nat, e: nat)
    requires Distinct(queue) && p < |queue| && e < d < |queue|
    ensures queue[Hop(p, e, |queue|)] != queue[Hop(p, d, |queue|)]
  {
  }

  /** A sweep stops at the first key that was not visited, or after going all the way round. */
  lemma SweepStops<K(!new), V>(c: Cache<K, V>, p: nat, d: nat)
    requires Valid(c) && p < |c.queue| && d <= |c.queue|
    requires var k := c.queue[Hop(p, d, |c.queue|)]; k in Cleared(c, p, d) && !Cleared(c, p, d)[k].visited
    ensures Queued(c) && Hops(c, p, d) == d
  {
    if d < |c.queue| {
      forall e | 0 <= e < d
        ensures c.queue[Hop(p, e, |c.queue|)] != c.queue[Hop(p, d, |c.queue|)]
      {
        HopDistinct(c.queue, p, d, e);
      }
    }
  }

  /** Going once round clears every flag, so a sweep goes on only before that. */
  lemma SweepGoesOn<K(!new), V>(c: Cache<K, V>, p: nat, d: nat)
    requires Valid(c) && p < |c.queue| && d <= |c.queue|
    requires var k := c.queue[Hop(p, d, |c.queue|)]; k in Cleared(c, p, d) && Cleared(c, p, d)[k].visited
    ensures d < |c.queue| && Queued(c) && Hops(c, p, d) == Hops(c, p, d + 1)
  {
    assert Hop(p, 0, |c.queue|) == Hop(p, |c.queue|, |c.queue|) == p;
  }

  lemma ClearOne<K(!new), V>(c: Cache<K, V>, p: nat, d: nat)
    requires Valid(c) && p < |c.queue| && d < |c.queue|
    ensures var k := c.queue[Hop(p, d, |c.queue|)];
            k in Cleared(c, p, d) && Cleared(c, p, d + 1) == Cleared(c, p, d)[k := Cleared(c, p, d)[k].(visited := false)]
    ensures c.queue[Hop(p, d + 1, |c.queue|)] in Cleared(c, p, d + 1)
  {
    var k, t := c.queue[Hop(p, d, |c.queue|)], Cleared(c, p, d + 1);
    assert k in c.store && c.queue[Hop(p, d + 1, |c.queue|)] in c.store;
    forall x | x in c.store
      ensures t[x] == if x == k then Cleared(c, p, d)[x].(visited := false) else Cleared(c, p, d)[x]
    {
    }
  }

  /** One more hop clears one more flag and moves the cursor one place. */
  lemma StepCleared<K(!new), V>(c: Cache<K, V>, p: nat, d: nat)
    requires Valid(c) && p < |c.queue| && d <= |c.queue|
    requires var k := c.queue[Hop(p, d, |c.queue|)]; k in Cleared(c, p, d) && Cleared(c, p, d)[k].visited
    ensures d < |c.queue| && Queued(c) && Hops(c, p, d) == Hops(c, p, d + 1)
    ensures var k := c.queue[Hop(p, d, |c.queue|)]; Cleared(c, p, d + 1) == Cleared(c, p, d)[k := Cleared(c, p, d)[k].(visited := false)]
    ensures Prev(c.queue, c.queue[Hop(p, d, |c.queue|)]) == if Hop(p, d, |c.queue|) == 0 then None else Some(c.queue[Hop(p, d, |c.queue|) - 1])
    ensures c.queue[Hop(p, d + 1, |c.queue|)] in Cleared(c, p, d + 1)
  {
    hide Cleared, Hops;
    SweepGoesOn(c, p, d);
    ClearOne(c, p, d);
  }
}
