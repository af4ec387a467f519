/** The keys of the metric histograms: length-prefixed parts, so that no two different things share a key. */
module MetricKeys {
  import opened Decimals

  /** `metricsNoneKind`. */
  const NONE_KIND: string := "0:"

  function KeyPart(value: string): string {
    Format(|value|) + ":" + value
  }

  function KindKey(kind: string): string {
    if kind == "" then NONE_KIND else KeyPart(kind)
  }

  /** `strings.Join(parts, "+")` over the key parts of the values. */
  function JoinParts(values: seq<string>): string {
    if values == [] then "" else if |values| == 1 then KeyPart(values[0]) else KeyPart(values[0]) + "+" + JoinParts(values[1..])
  }

  /** Any order of a set's members that depends on the set alone; `sort.Strings` gives one. */
  ghost predicate IsOrder(order: set<string> -> seq<string>) {
    forall s, x :: x in order(s) <==> x in s
  }

  function Nonempty(kinds: seq<string>): set<string> {
    set k | k in kinds && k != ""
  }

  function KindSetKey(order: set<string> -> seq<string>, kinds: seq<string>): string {
    var values := order(Nonempty(kinds));
    if values == [] then NONE_KIND else JoinParts(values)
  }

  function EndpointKey(startKey: string, edgeKey: string, endKey: string): string {
    KeyPart(startKey) + "|" + KeyPart(edgeKey) + "|" + KeyPart(endKey)
  }

  function DegreeKey(degree: nat): string {
    Format(degree)
  }

  // ----- Parts can be told apart without a separator -----

  lemma ColonPosition(value: string, rest: string)
    ensures var s := KeyPart(value) + rest;
            && |Format(|value|)| < |s| && s[|Format(|value|)|] == ':'
            && forall i :: 0 <= i < |Format(|value|)| ==> IsDigit(s[i])
  {
  }

  /** The part at the front of a string, and what follows it, are determined. */
  lemma PartPrefix(a: string, x: string, b: string, y: string)
    requires KeyPart(a) + x == KeyPart(b) + y
    ensures a == b && x == y
  {
    hide Format;
    var s := KeyPart(a) + x;
    ColonPosition(a, x);
    ColonPosition(b, y);
    var p, q := |Format(|a|)|, |Format(|b|)|;
    assert !IsDigit(s[p]) && !IsDigit(s[q]);
    assert p == q;
    assert Format(|a|) == s[..p] && Format(|b|) == s[..q];
    FormatInjective(|a|, |b|);
    assert a == s[p + 1..p + 1 + |a|] && b == s[p + 1..p + 1 + |b|];
    assert x == s[p + 1 + |a|..] && y == s[p + 1 + |b|..];
  }

  lemma PartInjective(a: string, b: string)
    requires KeyPart(a) == KeyPart(b)
    ensures a == b
  {
    assert KeyPart(a) + "" == KeyPart(a) && KeyPart(b) + "" == KeyPart(b);
    PartPrefix(a, "", b, "");
  }

  lemma NoneIsEmptyPart()
    ensures NONE_KIND == KeyPart("")
  {
    assert Format(0) == "0";
  }

  /** Different relationship kinds have different keys, the missing kind included. */
  lemma KindKeyInjective(a: string, b: string)
    requires KindKey(a) == KindKey(b)
    ensures a == b
  {
    NoneIsEmptyPart();
    PartInjective(a, b);
  }

  lemma PartsDiffer(a: string, x: string, b: string, y: string)
    requires a != b
    ensures KeyPart(a) + x != KeyPart(b) + y
  {
    if KeyPart(a) + x == KeyPart(b) + y {
      PartPrefix(a, x, b, y);
    }
  }

  /** What follows the first part. */
  function JoinTail(values: seq<string>): string
    requires values != []
  {
    if |values| == 1 then "" else "+" + JoinParts(values[1..])
  }

  lemma JoinSplits(values: seq<string>)
    requires values != []
    ensures JoinParts(values) == KeyPart(values[0]) + JoinTail(values)
  {
    hide KeyPart;
  }

  lemma {:induction false} JoinInjective(a: seq<string>, b: seq<string>)
    requires a != [] && b != [] && JoinParts(a) == JoinParts(b)
    ensures a == b
  {
    hide KeyPart, JoinParts;
    JoinSplits(a);
    JoinSplits(b);
    PartPrefix(a[0], JoinTail(a), b[0], JoinTail(b));
    assert |a| == 1 <==> |b| == 1;
    if |a| > 1 {
      assert JoinTail(a)[1..] == JoinParts(a[1..]) && JoinTail(b)[1..] == JoinParts(b[1..]);
      JoinInjective(a[1..], b[1..]);
    }
    assert a == [a[0]] + a[1..] && b == [b[0]] + b[1..];
  }

  lemma JoinIsNotNone(values: seq<string>)
    requires values != [] && values[0] != ""
    ensures JoinParts(values) != NONE_KIND
  {
    hide KeyPart, JoinParts;
    NoneIsEmptyPart();
    JoinSplits(values);
    assert KeyPart("") + "" == KeyPart("");
    PartsDiffer(values[0], JoinTail(values), "", "");
  }

  /** Two lists of kinds have the same key exactly when they have the same non-empty kinds. */
  lemma KindSetKeyIff(order: set<string> -> seq<string>, a: seq<string>, b: seq<string>)
    requires IsOrder(order)
    ensures KindSetKey(order, a) == KindSetKey(order, b) <==> Nonempty(a) == Nonempty(b)
  {
    var x, y := order(Nonempty(a)), order(Nonempty(b));
    if KindSetKey(order, a) == KindSetKey(order, b) {
      assert x != [] ==> x[0] in x;
      assert y != [] ==> y[0] in y;
      if x != [] {
        JoinIsNotNone(x);
      }
      if y != [] {
        JoinIsNotNone(y);
      }
      if x != [] && y != [] {
        JoinInjective(x, y);
      }
      forall k
        ensures k in Nonempty(a) <==> k in Nonempty(b)
      {
        assert k in x <==> k in Nonempty(a);
        assert k in y <==> k in Nonempty(b);
      }
    }
  }

  lemma EndpointKeyInjective(a: string, b: string, c: string, a': string, b': string, c': string)
    requires EndpointKey(a, b, c) == EndpointKey(a', b', c')
    ensures a == a' && b == b' && c == c'
  {
    hide KeyPart;
    var x, x' := "|" + KeyPart(b) + "|" + KeyPart(c), "|" + KeyPart(b') + "|" + KeyPart(c');
    assert EndpointKey(a, b, c) == KeyPart(a) + x && EndpointKey(a', b', c') == KeyPart(a') + x';
    PartPrefix(a, x, a', x');
    var y, y' := "|" + KeyPart(c), "|" + KeyPart(c');
    assert x[1..] == KeyPart(b) + y && x'[1..] == KeyPart(b') + y';
    PartPrefix(b, y, b', y');
    assert y[1..] == KeyPart(c) && y'[1..] == KeyPart(c');
    PartInjective(c, c');
  }

  /** `metricKindSetKey`: collect the distinct non-empty kinds, order them, join their parts. */
  method MetricKindSetKey(order: set<string> -> seq<string>, kinds: seq<string>) returns (key: string)
    ensures key == KindSetKey(order, kinds)
  {
    var seen: set<string> := {};
    for i := 0 to |kinds|
      invariant seen == Nonempty(kinds[..i])
    {
      assert kinds[..i + 1] == kinds[..i] + [kinds[i]];
      if kinds[i] != "" {
        seen := seen + {kinds[i]};
      }
    }
    assert kinds[..|kinds|] == kinds;
    var values := order(seen);
    if |values| == 0 {
      return NONE_KIND;
    }
    key := JoinLoop(values);
  }

  method JoinLoop(values: seq<string>) returns (key: string)
    requires values != []
    ensures key == JoinParts(values)
  {
    var i := |values| - 1;
    key := KeyPart(values[i]);
    assert values[i..] == [values[i]];
    while i > 0
      invariant 0 <= i < |values| && key == JoinParts(values[i..])
    {
      i := i - 1;
      assert values[i..][1..] == values[i + 1..];
      key := KeyPart(values[i]) + "+" + key;
    }
    assert values[0..] == values;
  }
}
