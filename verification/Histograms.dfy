/** Counting occurrences: histograms of sequences, their sums, and what renaming their keys does. */
module Histograms {

  type Histogram<K> = map<K, nat>

  function Count<K(==)>(h: Histogram<K>, k: K): nat {
    if k in h then h[k] else 0
  }

  function Increment<K(==)>(h: Histogram<K>, k: K): Histogram<K> {
    h[k := Count(h, k) + 1]
  }

  /** How often each key occurs in a sequence. */
  function Tally<K(==)>(keys: seq<K>): Histogram<K> {
    if keys == [] then map[] else Increment(Tally(keys[..|keys| - 1]), keys[|keys| - 1])
  }

  lemma TallyMore<K>(keys: seq<K>, k: K)
    ensures Tally(keys + [k]) == Increment(Tally(keys), k)
  {
    assert (keys + [k])[..|keys|] == keys;
  }

  lemma {:induction false} TallyIs<K>(keys: seq<K>)
    ensures forall k :: k in Tally(keys) <==> k in keys
    ensures forall k :: Count(Tally(keys), k) == multiset(keys)[k]
    ensures forall k :: k in Tally(keys) ==> Tally(keys)[k] > 0
  {
    if keys != [] {
      var front := keys[..|keys| - 1];
      TallyIs(front);
      assert keys == front + [keys[|keys| - 1]];
    }
  }

  // ----- Sums -----

  ghost function Sum<K(!new)>(h: Histogram<K>): nat
    decreases |h|
  {
    if h == map[] then 0
    else
      var k :| k in h;
      assert |h - {k}| < |h| by { Fewer(h, k); }
      h[k] + Sum(h - {k})
  }

  lemma Fewer<K>(h: Histogram<K>, k: K)
    requires k in h
    ensures |h - {k}| == |h| - 1
  {
    assert (h - {k}).Keys == h.Keys - {k};
    assert |(h - {k}).Keys| == |h - {k}| && |h.Keys| == |h|;
  }

  /** Any key may be taken out first. */
  lemma {:induction false} SumWithout<K(!new)>(h: Histogram<K>, k: K)
    requires k in h
    ensures Sum(h) == h[k] + Sum(h - {k})
    decreases |h|
  {
    var first :| first in h && Sum(h) == h[first] + Sum(h - {first});
    if first != k {
      Fewer(h, first);
      Fewer(h, k);
      SumWithout(h - {first}, k);
      SumWithout(h - {k}, first);
      assert h - {first} - {k} == h - {k} - {first};
    }
  }

  lemma SumIncrement<K(!new)>(h: Histogram<K>, k: K)
    ensures Sum(Increment(h, k)) == Sum(h) + 1
  {
    var h' := Increment(h, k);
    SumWithout(h', k);
    if k in h {
      SumWithout(h, k);
      assert h' - {k} == h - {k};
    } else {
      assert h' - {k} == h;
    }
  }

  /** A tally sums to the length of what was counted. */
  lemma {:induction false} TallySum<K(!new)>(keys: seq<K>)
    ensures Sum(Tally(keys)) == |keys|
  {
    if keys != [] {
      TallySum(keys[..|keys| - 1]);
      SumIncrement(Tally(keys[..|keys| - 1]), keys[|keys| - 1]);
    }
  }

  // ----- Renaming keys -----

  function Mapped<A, B>(f: A -> B, s: seq<A>): seq<B> {
    seq(|s|, i requires 0 <= i < |s| => f(s[i]))
  }

  ghost predicate InjectiveOn<A(!new), B>(f: A -> B, s: seq<A>) {
    forall x, y :: x in s && y in s && f(x) == f(y) ==> x == y
  }

  lemma {:induction false} MappedCount<A(!new), B(!new)>(f: A -> B, s: seq<A>, x: A)
    requires forall y :: y in s && f(y) == f(x) ==> y == x
    ensures multiset(Mapped(f, s))[f(x)] == multiset(s)[x]
  {
    if s != [] {
      var front, last := s[..|s| - 1], s[|s| - 1];
      assert s == front + [last];
      assert Mapped(f, s) == Mapped(f, front) + [f(last)];
      MappedCount(f, front, x);
    }
  }

  /** `h'` is `h` with every key replaced. */
  ghost predicate Renames<A(!new), B>(f: A -> B, h: Histogram<A>, h': Histogram<B>) {
    && (forall x :: x in h ==> f(x) in h' && h'[f(x)] == h[x])
    && (forall k :: k in h' ==> RenamedFrom(f, h, k))
  }

  ghost predicate RenamedFrom<A(!new), B>(f: A -> B, h: Histogram<A>, k: B) {
    exists x :: x in h && f(x) == k
  }

  /** Renaming by an injective map loses no bucket: the renamed tally is the tally of the renamed keys. */
  lemma RenamedTally<A(!new), B(!new)>(f: A -> B, s: seq<A>, h: Histogram<B>)
    requires InjectiveOn(f, s) && Renames(f, Tally(s), h)
    ensures h == Tally(Mapped(f, s))
  {
    var keys := Mapped(f, s);
    TallyIs(s);
    TallyIs(keys);
    forall k
      ensures k in h <==> k in Tally(keys)
      ensures k in h ==> h[k] == Tally(keys)[k]
    {
      if k in h {
        assert RenamedFrom(f, Tally(s), k);
        var x :| x in Tally(s) && f(x) == k;
        RenamedKey(f, s, x, k);
      }
      if k in Tally(keys) {
        var i :| 0 <= i < |keys| && keys[i] == k;
        assert s[i] in s && f(s[i]) == k;
      }
    }
  }

  lemma RenamedKey<A(!new), B(!new)>(f: A -> B, s: seq<A>, x: A, k: B)
    requires InjectiveOn(f, s) && x in s && f(x) == k
    ensures k in Mapped(f, s) && multiset(Mapped(f, s))[k] == multiset(s)[x]
  {
    var i :| 0 <= i < |s| && s[i] == x;
    assert Mapped(f, s)[i] == k;
    MappedCount(f, s, x);
  }

  /** The renaming loop: one assignment per key. */
  method Rename<A(==, !new), B(==)>(f: A -> B, h: Histogram<A>) returns (h': Histogram<B>)
    requires forall x, y :: x in h && y in h && f(x) == f(y) ==> x == y
    ensures Renames(f, h, h')
  {
    h' := map[];
    var left := h.Keys;
    while left != {}
      invariant left <= h.Keys
      invariant forall x :: x in h && x !in left ==> f(x) in h' && h'[f(x)] == h[x]
      invariant forall k :: k in h' ==> RenamedFrom(f, h, k)
      decreases |left|
    {
      var x :| x in left;
      h' := h'[f(x) := h[x]];
      left := left - {x};
    }
  }

  /** `validateMetricHistogramSum`. Counts are never negative here. */
  method ValidateSum<K(==, !new)>(h: Histogram<K>, expected: nat) returns (ok: bool)
    ensures ok <==> Sum(h) == expected
  {
    var total, left := 0, h;
    while left != map[]
      invariant total + Sum(left) == Sum(h)
      decreases |left|
    {
      var key :| key in left;
      SumWithout(left, key);
      Fewer(left, key);
      total := total + left[key];
      left := left - {key};
    }
    ok := total == expected;
  }
}
