/** What eviction does over whole runs, told by the operations and not by the flags. */
module SieveRuns {
  import opened Optional
  import opened Sequences
  import opened SieveCache

  // ----- What happened to a key -----

  /** Operation `i` puts the key when it is not stored. */
  ghost predicate Enters<K(!new), V>(capacity: int, ops: seq<Op<K, V>>, i: nat, k: K) {
    i < |ops| && ops[i].PutOp? && ops[i].key == k && k !in Run(capacity, ops[..i]).store
  }

  /** Operation `i` asks for the key, or puts it again, when it is stored. */
  ghost predicate Asks<K(!new), V>(capacity: int, ops: seq<Op<K, V>>, i: nat, k: K) {
    i < |ops| && !ops[i].DeleteOp? && ops[i].key == k && k in Run(capacity, ops[..i]).store
  }

  /** Operation `i` puts a key that is not stored into a cache that is full. */
  ghost predicate Evicts<K(!new), V>(capacity: int, ops: seq<Op<K, V>>, i: nat) {
    && i < |ops| && ops[i].PutOp?
    && var c := Run(capacity, ops[..i]); ops[i].key !in c.store && |c.store| == c.capacity
  }

  /** The key was asked for or put again since it came in. */
  ghost predicate AskedSinceIn<K(!new), V>(capacity: int, ops: seq<Op<K, V>>, k: K) {
    exists i: nat :: Asks(capacity, ops, i, k) && forall j: nat :: i < j ==> !Enters(capacity, ops, j, k)
  }

  ghost predicate NotSince<K(!new), V>(capacity: int, ops: seq<Op<K, V>>, i: nat, k: K) {
    forall j: nat :: i < j ==> !Enters(capacity, ops, j, k) && !Evicts(capacity, ops, j)
  }

  /** The key was asked for or put again since it came in and since the last eviction. */
  ghost predicate AskedLately<K(!new), V>(capacity: int, ops: seq<Op<K, V>>, k: K) {
    exists i: nat :: Asks(capacity, ops, i, k) && NotSince(capacity, ops, i, k)
  }

  // ----- The flag in these terms -----

  lemma RunMore<K(!new), V>(capacity: int, ops: seq<Op<K, V>>, op: Op<K, V>)
    ensures Run(capacity, ops + [op]) == Apply(Run(capacity, ops), op)
  {
    assert (ops + [op])[..|ops|] == ops;
  }

  lemma SameBefore<K(!new), V>(capacity: int, ops: seq<Op<K, V>>, op: Op<K, V>, i: nat, k: K)
    requires i < |ops|
    ensures Enters(capacity, ops + [op], i, k) <==> Enters(capacity, ops, i, k)
    ensures Asks(capacity, ops + [op], i, k) <==> Asks(capacity, ops, i, k)
    ensures Evicts(capacity, ops + [op], i) <==> Evicts(capacity, ops, i)
  {
    assert (ops + [op])[..i] == ops[..i];
  }

  lemma AtTheEnd<K(!new), V>(capacity: int, ops: seq<Op<K, V>>, op: Op<K, V>, k: K)
    ensures var c := Run(capacity, ops);
            && (Enters(capacity, ops + [op], |ops|, k) <==> op.PutOp? && op.key == k && k !in c.store)
            && (Asks(capacity, ops + [op], |ops|, k) <==> !op.DeleteOp? && op.key == k && k in c.store)
            && (Evicts(capacity, ops + [op], |ops|) <==> op.PutOp? && op.key !in c.store && |c.store| == c.capacity)
  {
    assert (ops + [op])[..|ops|] == ops;
  }

  /** What a put that evicts does to the flags: it sets none. */
  lemma EvictSetsNoFlag<K(!new), V>(c: Cache<K, V>, k: K)
    requires Valid(c) && |c.queue| > 0 && k in AfterEvict(c).store
    ensures k in c.store && (AfterEvict(c).store[k].visited ==> c.store[k].visited)
  {
    hide Hops;
    ClearedFacts(c, Start(c), Hops(c, Start(c), 0));
  }

  lemma FlagAfterPut<K(!new), V>(c: Cache<K, V>, key: K, v: V, k: K)
    requires Valid(c) && k in AfterPut(c, key, v).store
    ensures key == k && k in c.store ==> AfterPut(c, key, v).store[k].visited
    ensures k !in c.store ==> key == k && !AfterPut(c, key, v).store[k].visited
    ensures k in c.store && key != k ==> (AfterPut(c, key, v).store[k].visited ==> c.store[k].visited)
    ensures k in c.store && key != k && (key in c.store || |c.queue| < c.capacity) ==> AfterPut(c, key, v).store[k].visited == c.store[k].visited
  {
    hide AfterEvict;
    if key !in c.store && |c.queue| >= c.capacity && k != key {
      EvictSetsNoFlag(c, k);
    }
  }

  /** What one operation does to the flag of a key that is stored after it. */
  lemma FlagAfter<K(!new), V>(c: Cache<K, V>, op: Op<K, V>, k: K)
    requires Valid(c) && k in Apply(c, op).store
    ensures !op.DeleteOp? && op.key == k && k in c.store ==> Apply(c, op).store[k].visited
    ensures k !in c.store ==> op.PutOp? && op.key == k && !Apply(c, op).store[k].visited
    ensures k in c.store && (op.DeleteOp? || op.key != k) ==> (Apply(c, op).store[k].visited ==> c.store[k].visited)
    ensures k in c.store && (op.DeleteOp? || op.key != k) && !(op.PutOp? && op.key !in c.store && |c.store| == c.capacity) ==>
              Apply(c, op).store[k].visited == c.store[k].visited
  {
    hide AfterPut, AfterDelete;
    match op
    case PutOp(key, v) => FlagAfterPut(c, key, v, k);
    case GetOp(key) =>
    case DeleteOp(key) => DeleteKeepsValid(c, key);
  }

  /** A flag that is set means that the key was asked for since it came in. */
  lemma {:induction false} FlagMeansAsked<K(!new), V>(capacity: int, ops: seq<Op<K, V>>, k: K)
    requires k in Run(capacity, ops).store && Run(capacity, ops).store[k].visited
    ensures AskedSinceIn(capacity, ops, k)
  {
    hide Enters, Asks, Evicts, Apply, Valid;
    if ops != [] {
      var front, op := ops[..|ops| - 1], ops[|ops| - 1];
      assert ops == front + [op];
      RunMore(capacity, front, op);
      FlagAfter(Run(capacity, front), op, k);
      AtTheEnd(capacity, front, op, k);
      NothingLater(capacity, ops, k);
      if !Asks(capacity, ops, |front|, k) {
        FlagMeansAsked(capacity, front, k);
        var i: nat :| Asks(capacity, front, i, k) && forall j: nat :: i < j ==> !Enters(capacity, front, j, k);
        AskedInside(capacity, front, i, k);
        SameBefore(capacity, front, op, i, k);
        forall j: nat | i < j
          ensures !Enters(capacity, ops, j, k)
        {
          if j < |front| {
            SameBefore(capacity, front, op, j, k);
          }
        }
      }
    }
  }

  lemma AskedInside<K(!new), V>(capacity: int, ops: seq<Op<K, V>>, i: nat, k: K)
    requires Asks(capacity, ops, i, k)
    ensures i < |ops|
  {
  }

  lemma NothingLater<K(!new), V>(capacity: int, ops: seq<Op<K, V>>, k: K)
    ensures forall j: nat :: |ops| <= j ==> !Enters(capacity, ops, j, k) && !Evicts(capacity, ops, j)
  {
  }

  /** A key that was asked for since the last eviction has its flag set. */
  lemma {:induction false} AskedSetsFlag<K(!new), V>(capacity: int, ops: seq<Op<K, V>>, k: K)
    requires k in Run(capacity, ops).store && AskedLately(capacity, ops, k)
    ensures Run(capacity, ops).store[k].visited
  {
    hide Enters, Asks, Evicts, Apply, Valid;
    var i: nat :| Asks(capacity, ops, i, k) && NotSince(capacity, ops, i, k);
    AskedInside(capacity, ops, i, k);
    var front, op := ops[..|ops| - 1], ops[|ops| - 1];
    assert ops == front + [op];
    RunMore(capacity, front, op);
    FlagAfter(Run(capacity, front), op, k);
    AtTheEnd(capacity, front, op, k);
    if i < |front| {
      assert !Enters(capacity, ops, |front|, k) && !Evicts(capacity, ops, |front|);
      SameBefore(capacity, front, op, i, k);
      NothingLater(capacity, front, k);
      forall j: nat | i < j
        ensures !Enters(capacity, front, j, k) && !Evicts(capacity, front, j)
      {
        if j < |front| {
          SameBefore(capacity, front, op, j, k);
          assert !Enters(capacity, ops, j, k) && !Evicts(capacity, ops, j);
        }
      }
      assert NotSince(capacity, front, i, k);
      if !(op.key == k && !op.DeleteOp?) {
        AskedSetsFlag(capacity, front, k);
      }
    }
  }

  // ----- Second chance -----

  /**
   * Over every run: when a new key is put into a full cache, a key that was asked for, or put again, since it came in and since
   * the last eviction stays, unless every stored key was asked for or put again since it came in.
   */
  lemma SecondChance<K(!new), V>(capacity: int, ops: seq<Op<K, V>>, x: K, y: K, k: K, v: V)
    requires var c := Run(capacity, ops); x in c.store && y in c.store && k !in c.store
    requires AskedLately(capacity, ops, x) && !AskedSinceIn(capacity, ops, y)
    ensures x in Run(capacity, ops + [PutOp(k, v)]).store
  {
    hide AskedLately, AskedSinceIn, AfterPut;
    var c := Run(capacity, ops);
    RunMore(capacity, ops, PutOp(k, v));
    AskedSetsFlag(capacity, ops, x);
    if c.store[y].visited {
      FlagMeansAsked(capacity, ops, y);
    }
    SparedIff(c, x, k, v);
  }

  /** A put of a new key into a full cache takes out the victim and nothing else; before that nothing goes. */
  lemma PutTakesVictim<K(!new), V>(c: Cache<K, V>, k: K, v: V)
    requires Valid(c) && k !in c.store
    ensures |c.queue| < c.capacity ==> forall x :: x in AfterPut(c, k, v).store <==> x in c.store || x == k
    ensures |c.queue| == c.capacity ==> |c.queue| > 0 && Queued(c) && forall x :: x in AfterPut(c, k, v).store <==> (x in c.store && x != Victim(c)) || x == k
  {
    hide AfterEvict, Victim;
    if |c.queue| == c.capacity {
      EvictRemovesOne(c);
    }
  }

  /** Exactly when a key whose flag is set stays: not every flag is set, or the hand is elsewhere. */
  lemma SparedIff<K(!new), V>(c: Cache<K, V>, x: K, k: K, v: V)
    requires Valid(c) && x in c.store && k !in c.store && c.store[x].visited
    ensures x in AfterPut(c, k, v).store <==> |c.store| < c.capacity || (exists y :: y in c.store && !c.store[y].visited) || c.queue[Start(c)] != x
  {
    hide Victim, Start, AfterPut;
    PutTakesVictim(c, k, v);
    if |c.queue| == c.capacity {
      if forall y :: y in c.store ==> c.store[y].visited {
        AllVisitedTakesStart(c);
      } else if Victim(c) == x {
        VictimUnvisited(c);
      }
    }
  }

  lemma AllVisitedTakesStart<K(!new), V>(c: Cache<K, V>)
    requires Valid(c) && |c.queue| > 0 && forall y :: y in c.store ==> c.store[y].visited
    ensures Victim(c) == c.queue[Start(c)]
  {
    var p, n := Start(c), |c.queue|;
    assert forall e :: 0 <= e < n ==> c.store[c.queue[Hop(p, e, n)]].visited;
    assert Hops(c, p, 0) == n;
    assert Hop(p, n, n) == p;
  }

  // ----- Hits and misses -----

  ghost function Hits<K(!new), V>(capacity: int, ops: seq<Op<K, V>>): set<nat> {
    set i: nat | i < |ops| && ops[i].GetOp? && ops[i].key in Run(capacity, ops[..i]).store
  }

  ghost function Misses<K(!new), V>(capacity: int, ops: seq<Op<K, V>>): set<nat> {
    set i: nat | i < |ops| && ops[i].GetOp? && ops[i].key !in Run(capacity, ops[..i]).store
  }

  lemma OneMoreGet<K(!new), V>(capacity: int, ops: seq<Op<K, V>>, op: Op<K, V>)
    ensures var c, n := Run(capacity, ops), |ops|;
            && Hits(capacity, ops + [op]) == Hits(capacity, ops) + (if op.GetOp? && op.key in c.store then {n} else {})
            && Misses(capacity, ops + [op]) == Misses(capacity, ops) + (if op.GetOp? && op.key !in c.store then {n} else {})
  {
    hide Run;
    var more := ops + [op];
    assert more[..|ops|] == ops;
    forall i: nat
      ensures i in Hits(capacity, more) <==> i in Hits(capacity, ops) || (i == |ops| && op.GetOp? && op.key in Run(capacity, ops).store)
      ensures i in Misses(capacity, more) <==> i in Misses(capacity, ops) || (i == |ops| && op.GetOp? && op.key !in Run(capacity, ops).store)
    {
      if i < |ops| {
        assert more[..i] == ops[..i] && more[i] == ops[i];
      }
    }
  }

  /** The counters count the requests for stored keys and for other keys. */
  lemma {:induction false} CountersCount<K(!new), V>(capacity: int, ops: seq<Op<K, V>>)
    ensures Run(capacity, ops).hits == |Hits(capacity, ops)| && Run(capacity, ops).misses == |Misses(capacity, ops)|
  {
    if ops != [] {
      var front, op := ops[..|ops| - 1], ops[|ops| - 1];
      assert ops == front + [op];
      CountersCount(capacity, front);
      OneMoreGet(capacity, front, op);
      hide Apply, Valid, Hits, Misses;
      RunMore(capacity, front, op);
      NotYet(capacity, front);
      ApplyCounts(Run(capacity, front), op);
    }
  }

  lemma NotYet<K(!new), V>(capacity: int, ops: seq<Op<K, V>>)
    ensures |ops| !in Hits(capacity, ops) && |ops| !in Misses(capacity, ops)
  {
  }

  lemma ApplyCounts<K(!new), V>(c: Cache<K, V>, op: Op<K, V>)
    requires Valid(c)
    ensures Apply(c, op).hits == c.hits + if op.GetOp? && op.key in c.store then 1 else 0
    ensures Apply(c, op).misses == c.misses + if op.GetOp? && op.key !in c.store then 1 else 0
  {
  }
}
