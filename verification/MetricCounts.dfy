/** The metrics of a graph, bucket by bucket: what each count says about nodes and relationships. */
module MetricCounts {
  import opened Decimals
  import opened MetricKeys
  import opened Histograms

  datatype SourceID = Numeric(number: nat) | Text(text: string)

  datatype Node = Node(id: SourceID, kinds: seq<string>)

  /** A relationship between observed nodes, by their position. */
  datatype Relationship = Relationship(start: nat, end: nat, kind: string)

  datatype GraphMetrics = GraphMetrics(
    name: string,
    nodeCount: nat,
    edgeCount: nat,
    nodeKinds: Histogram<string>,
    edgeKinds: Histogram<string>,
    inDegrees: Histogram<string>,
    outDegrees: Histogram<string>,
    totalDegrees: Histogram<string>,
    endpointKinds: Histogram<string>)

  // ----- Direct counts -----

  function InDegree(edges: seq<Relationship>, i: nat): nat {
    if edges == [] then 0 else InDegree(edges[..|edges| - 1], i) + if edges[|edges| - 1].end == i then 1 else 0
  }

  function OutDegree(edges: seq<Relationship>, i: nat): nat {
    if edges == [] then 0 else OutDegree(edges[..|edges| - 1], i) + if edges[|edges| - 1].start == i then 1 else 0
  }

  function NodeKeys(order: set<string> -> seq<string>, nodes: seq<Node>): seq<string> {
    seq(|nodes|, i requires 0 <= i < |nodes| => KindSetKey(order, nodes[i].kinds))
  }

  function EdgeKeys(edges: seq<Relationship>): seq<string> {
    seq(|edges|, i requires 0 <= i < |edges| => KindKey(edges[i].kind))
  }

  predicate InGraph(nodes: seq<Node>, edges: seq<Relationship>) {
    forall i :: 0 <= i < |edges| ==> edges[i].start < |nodes| && edges[i].end < |nodes|
  }

  function EndpointKeys(order: set<string> -> seq<string>, nodes: seq<Node>, edges: seq<Relationship>): seq<string>
    requires InGraph(nodes, edges)
  {
    seq(|edges|, i requires 0 <= i < |edges| =>
      EndpointKey(KindSetKey(order, nodes[edges[i].start].kinds), KindKey(edges[i].kind), KindSetKey(order, nodes[edges[i].end].kinds)))
  }

  function DegreeKeys(degrees: seq<nat>): seq<string> {
    seq(|degrees|, i requires 0 <= i < |degrees| => DegreeKey(degrees[i]))
  }

  function InDegrees(n: nat, edges: seq<Relationship>): seq<nat> {
    seq(n, i requires 0 <= i < n => InDegree(edges, i))
  }

  function OutDegrees(n: nat, edges: seq<Relationship>): seq<nat> {
    seq(n, i requires 0 <= i < n => OutDegree(edges, i))
  }

  function TotalDegrees(n: nat, edges: seq<Relationship>): seq<nat> {
    seq(n, i requires 0 <= i < n => InDegree(edges, i) + OutDegree(edges, i))
  }

  /** The metrics of a graph, counted directly. */
  function Direct(order: set<string> -> seq<string>, name: string, nodes: seq<Node>, edges: seq<Relationship>): GraphMetrics
    requires InGraph(nodes, edges)
  {
    GraphMetrics(name, |nodes|, |edges|,
                 Tally(NodeKeys(order, nodes)), Tally(EdgeKeys(edges)),
                 Tally(DegreeKeys(InDegrees(|nodes|, edges))), Tally(DegreeKeys(OutDegrees(|nodes|, edges))),
                 Tally(DegreeKeys(TotalDegrees(|nodes|, edges))), Tally(EndpointKeys(order, nodes, edges)))
  }

  // ----- What each bucket counts -----

  /** The relationships that arrive at a node, and those that leave it. */
  function Arriving(edges: seq<Relationship>, i: nat): set<nat> {
    set k: nat | k < |edges| && edges[k].end == i
  }

  function Leaving(edges: seq<Relationship>, i: nat): set<nat> {
    set k: nat | k < |edges| && edges[k].start == i
  }

  /** Under the decimal of `d` stands the number of nodes of degree `d`, and there are no other keys. */
  ghost predicate DegreesCounted(m: GraphMetrics, n: nat, edges: seq<Relationship>) {
    && (forall d: nat ::
          && Count(m.inDegrees, Format(d)) == |set i: nat | i < n && |Arriving(edges, i)| == d|
          && Count(m.outDegrees, Format(d)) == |set i: nat | i < n && |Leaving(edges, i)| == d|
          && Count(m.totalDegrees, Format(d)) == |set i: nat | i < n && |Arriving(edges, i)| + |Leaving(edges, i)| == d|)
    && (forall key :: key in m.inDegrees || key in m.outDegrees || key in m.totalDegrees ==> exists d: nat :: key == Format(d))
  }

  /** `strings.Join`. */
  function Join(parts: seq<string>, separator: string): string {
    if parts == [] then "" else if |parts| == 1 then parts[0] else Join(parts[..|parts| - 1], separator) + separator + parts[|parts| - 1]
  }

  /** The text of a kind set: its members, each behind its length and a colon, joined by plus signs. */
  function SetText(order: set<string> -> seq<string>, kinds: seq<string>): string {
    var values := order(set k | k in kinds && k != "");
    if values == [] then "0:" else Join(seq(|values|, i requires 0 <= i < |values| => Format(|values[i]|) + ":" + values[i]), "+")
  }

  ghost predicate SameKinds(a: seq<string>, b: seq<string>) {
    forall k :: k != "" ==> (k in a <==> k in b)
  }

  /** Under the text of a node's kinds stands the number of nodes with these kinds. */
  ghost predicate NodeKindsCounted(m: GraphMetrics, order: set<string> -> seq<string>, nodes: seq<Node>) {
    && (forall i: nat :: i < |nodes| ==>
          Count(m.nodeKinds, SetText(order, nodes[i].kinds)) == |set j: nat | j < |nodes| && SameKinds(nodes[j].kinds, nodes[i].kinds)|)
    && (forall key :: key in m.nodeKinds ==> exists i: nat :: i < |nodes| && key == SetText(order, nodes[i].kinds))
  }

  ghost predicate EdgeKindsCounted(m: GraphMetrics, edges: seq<Relationship>) {
    && (forall kind :: Count(m.edgeKinds, Format(|kind|) + ":" + kind) == |set j: nat | j < |edges| && edges[j].kind == kind|)
    && (forall key :: key in m.edgeKinds ==> exists i: nat :: i < |edges| && key == Format(|edges[i].kind|) + ":" + edges[i].kind)
  }

  /** The key of a relationship in the endpoint histogram, written out. */
  function EndpointText(order: set<string> -> seq<string>, nodes: seq<Node>, r: Relationship): string
    requires r.start < |nodes| && r.end < |nodes|
  {
    var a, b, c := SetText(order, nodes[r.start].kinds), Format(|r.kind|) + ":" + r.kind, SetText(order, nodes[r.end].kinds);
    Format(|a|) + ":" + a + "|" + Format(|b|) + ":" + b + "|" + Format(|c|) + ":" + c
  }

  /** From a node of the same kinds, of the same kind, to a node of the same kinds. */
  ghost predicate AlikeEnds(nodes: seq<Node>, r: Relationship, s: Relationship) {
    && r.start < |nodes| && r.end < |nodes| && s.start < |nodes| && s.end < |nodes|
    && SameKinds(nodes[r.start].kinds, nodes[s.start].kinds) && r.kind == s.kind && SameKinds(nodes[r.end].kinds, nodes[s.end].kinds)
  }

  ghost predicate EndpointsCounted(m: GraphMetrics, order: set<string> -> seq<string>, nodes: seq<Node>, edges: seq<Relationship>)
    requires InGraph(nodes, edges)
  {
    && (forall i: nat :: i < |edges| ==>
          Count(m.endpointKinds, EndpointText(order, nodes, edges[i])) == |set j: nat | j < |edges| && AlikeEnds(nodes, edges[j], edges[i])|)
    && (forall key :: key in m.endpointKinds ==> exists i: nat :: i < |edges| && key == EndpointText(order, nodes, edges[i]))
  }

  // ----- Counting positions -----

  function Positions<K(==)>(keys: seq<K>, k: K): set<nat> {
    set i: nat | i < |keys| && keys[i] == k
  }

  lemma {:induction false} OccursAt<K>(keys: seq<K>, k: K)
    ensures multiset(keys)[k] == |Positions(keys, k)|
  {
    if keys != [] {
      var n := |keys| - 1;
      var front := keys[..n];
      OccursAt(front, k);
      assert keys == front + [keys[n]];
      assert Positions(keys, k) == Positions(front, k) + if keys[n] == k then {n} else {};
    }
  }

  /** A bucket of a tally counts the positions of its key. */
  lemma TallyCounts<K>(keys: seq<K>, k: K)
    ensures Count(Tally(keys), k) == |Positions(keys, k)|
  {
    TallyIs(keys);
    OccursAt(keys, k);
  }

  lemma TallyKey<K>(keys: seq<K>, k: K) returns (i: nat)
    requires k in Tally(keys)
    ensures i < |keys| && keys[i] == k
  {
    TallyIs(keys);
    i :| i < |keys| && keys[i] == k;
  }

  // ----- Degrees -----

  lemma {:induction false} InDegreeIs(edges: seq<Relationship>, i: nat)
    ensures InDegree(edges, i) == |Arriving(edges, i)|
  {
    if edges != [] {
      var n, front := |edges| - 1, edges[..|edges| - 1];
      InDegreeIs(front, i);
      assert Arriving(edges, i) == Arriving(front, i) + if edges[n].end == i then {n} else {};
    }
  }

  lemma {:induction false} OutDegreeIs(edges: seq<Relationship>, i: nat)
    ensures OutDegree(edges, i) == |Leaving(edges, i)|
  {
    if edges != [] {
      var n, front := |edges| - 1, edges[..|edges| - 1];
      OutDegreeIs(front, i);
      assert Leaving(edges, i) == Leaving(front, i) + if edges[n].start == i then {n} else {};
    }
  }

  lemma DegreePositions(degrees: seq<nat>, d: nat)
    ensures Count(Tally(DegreeKeys(degrees)), Format(d)) == |Positions(degrees, d)|
  {
    hide Tally, Count, Format;
    TallyCounts(DegreeKeys(degrees), Format(d));
    forall i: nat | i < |degrees|
      ensures DegreeKeys(degrees)[i] == Format(d) <==> degrees[i] == d
    {
      if Format(degrees[i]) == Format(d) {
        FormatInjective(degrees[i], d);
      }
    }
    assert Positions(DegreeKeys(degrees), Format(d)) == Positions(degrees, d);
  }

  lemma DegreeKeyIs(degrees: seq<nat>, key: string)
    requires key in Tally(DegreeKeys(degrees))
    ensures exists d: nat :: key == Format(d)
  {
    hide Tally, Format;
    var i := TallyKey(DegreeKeys(degrees), key);
    assert key == Format(degrees[i]);
  }

  lemma InDegreeBucket(n: nat, edges: seq<Relationship>, d: nat)
    ensures Count(Tally(DegreeKeys(InDegrees(n, edges))), Format(d)) == |set i: nat | i < n && |Arriving(edges, i)| == d|
  {
    hide Tally, Count, Format, Arriving, InDegree, DegreeKeys;
    DegreePositions(InDegrees(n, edges), d);
    forall i: nat | i < n
      ensures InDegrees(n, edges)[i] == |Arriving(edges, i)|
    {
      InDegreeIs(edges, i);
    }
    assert Positions(InDegrees(n, edges), d) == set i: nat | i < n && |Arriving(edges, i)| == d;
  }

  lemma OutDegreeBucket(n: nat, edges: seq<Relationship>, d: nat)
    ensures Count(Tally(DegreeKeys(OutDegrees(n, edges))), Format(d)) == |set i: nat | i < n && |Leaving(edges, i)| == d|
  {
    hide Tally, Count, Format, Leaving, OutDegree, DegreeKeys;
    DegreePositions(OutDegrees(n, edges), d);
    forall i: nat | i < n
      ensures OutDegrees(n, edges)[i] == |Leaving(edges, i)|
    {
      OutDegreeIs(edges, i);
    }
    assert Positions(OutDegrees(n, edges), d) == set i: nat | i < n && |Leaving(edges, i)| == d;
  }

  lemma TotalDegreeBucket(n: nat, edges: seq<Relationship>, d: nat)
    ensures Count(Tally(DegreeKeys(TotalDegrees(n, edges))), Format(d)) == |set i: nat | i < n && |Arriving(edges, i)| + |Leaving(edges, i)| == d|
  {
    hide Tally, Count, Format, Arriving, Leaving, InDegree, OutDegree, DegreeKeys;
    DegreePositions(TotalDegrees(n, edges), d);
    forall i: nat | i < n
      ensures TotalDegrees(n, edges)[i] == |Arriving(edges, i)| + |Leaving(edges, i)|
    {
      InDegreeIs(edges, i);
      OutDegreeIs(edges, i);
    }
    assert Positions(TotalDegrees(n, edges), d) == set i: nat | i < n && |Arriving(edges, i)| + |Leaving(edges, i)| == d;
  }

  lemma DegreesCount(order: set<string> -> seq<string>, name: string, nodes: seq<Node>, edges: seq<Relationship>)
    requires InGraph(nodes, edges)
    ensures DegreesCounted(Direct(order, name, nodes, edges), |nodes|, edges)
  {
    hide Tally, Count, Format, Arriving, Leaving, InDegrees, OutDegrees, TotalDegrees, DegreeKeys, NodeKeys, EdgeKeys, EndpointKeys;
    var n, m := |nodes|, Direct(order, name, nodes, edges);
    forall d: nat
      ensures Count(m.inDegrees, Format(d)) == |set i: nat | i < n && |Arriving(edges, i)| == d|
      ensures Count(m.outDegrees, Format(d)) == |set i: nat | i < n && |Leaving(edges, i)| == d|
      ensures Count(m.totalDegrees, Format(d)) == |set i: nat | i < n && |Arriving(edges, i)| + |Leaving(edges, i)| == d|
    {
      InDegreeBucket(n, edges, d);
      OutDegreeBucket(n, edges, d);
      TotalDegreeBucket(n, edges, d);
    }
    forall key | key in m.inDegrees || key in m.outDegrees || key in m.totalDegrees
      ensures exists d: nat :: key == Format(d)
    {
      if key in m.inDegrees {
        DegreeKeyIs(InDegrees(n, edges), key);
      } else if key in m.outDegrees {
        DegreeKeyIs(OutDegrees(n, edges), key);
      } else {
        DegreeKeyIs(TotalDegrees(n, edges), key);
      }
    }
  }

  // ----- Kinds -----

  lemma JoinFront(parts: seq<string>, separator: string)
    requires |parts| > 1
    ensures Join(parts, separator) == parts[0] + separator + Join(parts[1..], separator)
  {
    var n := |parts| - 1;
    if n > 1 {
      JoinFront(parts[..n], separator);
      assert parts[..n][1..] == parts[1..][..n - 1];
    }
  }

  lemma {:induction false} PartsJoin(values: seq<string>)
    ensures JoinParts(values) == Join(seq(|values|, i requires 0 <= i < |values| => Format(|values[i]|) + ":" + values[i]), "+")
  {
    hide Format;
    var parts := seq(|values|, i requires 0 <= i < |values| => Format(|values[i]|) + ":" + values[i]);
    if |values| > 1 {
      PartsJoin(values[1..]);
      assert parts[1..] == seq(|values[1..]|, i requires 0 <= i < |values[1..]| => Format(|values[1..][i]|) + ":" + values[1..][i]);
      JoinFront(parts, "+");
    }
  }

  lemma SetTextIsKey(order: set<string> -> seq<string>, kinds: seq<string>)
    ensures SetText(order, kinds) == KindSetKey(order, kinds)
  {
    hide JoinParts, Join;
    PartsJoin(order(Nonempty(kinds)));
  }

  lemma KindText(kind: string)
    ensures KindKey(kind) == Format(|kind|) + ":" + kind
  {
    NoneIsEmptyPart();
  }

  lemma SameKindsIff(order: set<string> -> seq<string>, a: seq<string>, b: seq<string>)
    requires IsOrder(order)
    ensures KindSetKey(order, a) == KindSetKey(order, b) <==> SameKinds(a, b)
  {
    hide KindSetKey;
    KindSetKeyIff(order, a, b);
    assert Nonempty(a) == Nonempty(b) <==> forall k :: k in Nonempty(a) <==> k in Nonempty(b);
    if Nonempty(a) == Nonempty(b) {
      forall k | k != ""
        ensures k in a <==> k in b
      {
        assert k in Nonempty(a) <==> k in Nonempty(b);
      }
    }
  }

  lemma NodeKindsCount(order: set<string> -> seq<string>, name: string, nodes: seq<Node>, edges: seq<Relationship>)
    requires InGraph(nodes, edges) && IsOrder(order)
    ensures NodeKindsCounted(Direct(order, name, nodes, edges), order, nodes)
  {
    hide Tally, Count, KindSetKey, SetText, SameKinds, IsOrder;
    var m, keys := Direct(order, name, nodes, edges), NodeKeys(order, nodes);
    forall i: nat | i < |nodes|
      ensures Count(m.nodeKinds, SetText(order, nodes[i].kinds)) == |set j: nat | j < |nodes| && SameKinds(nodes[j].kinds, nodes[i].kinds)|
    {
      SetTextIsKey(order, nodes[i].kinds);
      TallyCounts(keys, keys[i]);
      forall j: nat | j < |nodes|
        ensures keys[j] == keys[i] <==> SameKinds(nodes[j].kinds, nodes[i].kinds)
      {
        SameKindsIff(order, nodes[j].kinds, nodes[i].kinds);
      }
      assert Positions(keys, keys[i]) == set j: nat | j < |nodes| && SameKinds(nodes[j].kinds, nodes[i].kinds);
    }
    forall key | key in m.nodeKinds
      ensures exists i: nat :: i < |nodes| && key == SetText(order, nodes[i].kinds)
    {
      var i := TallyKey(keys, key);
      SetTextIsKey(order, nodes[i].kinds);
    }
  }

  lemma EdgeKindsCount(order: set<string> -> seq<string>, name: string, nodes: seq<Node>, edges: seq<Relationship>)
    requires InGraph(nodes, edges)
    ensures EdgeKindsCounted(Direct(order, name, nodes, edges), edges)
  {
    hide Tally, Count, KindKey, Format;
    var m, keys := Direct(order, name, nodes, edges), EdgeKeys(edges);
    forall kind
      ensures Count(m.edgeKinds, Format(|kind|) + ":" + kind) == |set j: nat | j < |edges| && edges[j].kind == kind|
    {
      KindText(kind);
      TallyCounts(keys, KindKey(kind));
      forall j: nat | j < |edges|
        ensures keys[j] == KindKey(kind) <==> edges[j].kind == kind
      {
        if keys[j] == KindKey(kind) {
          KindKeyInjective(edges[j].kind, kind);
        }
      }
      assert Positions(keys, KindKey(kind)) == set j: nat | j < |edges| && edges[j].kind == kind;
    }
    forall key | key in m.edgeKinds
      ensures exists i: nat :: i < |edges| && key == Format(|edges[i].kind|) + ":" + edges[i].kind
    {
      var i := TallyKey(keys, key);
      KindText(edges[i].kind);
    }
  }

  // ----- Endpoints -----

  lemma EndpointTextIsKey(order: set<string> -> seq<string>, nodes: seq<Node>, edges: seq<Relationship>, i: nat)
    requires InGraph(nodes, edges) && i < |edges|
    ensures EndpointText(order, nodes, edges[i]) == EndpointKeys(order, nodes, edges)[i]
  {
    hide Format, KindSetKey, SetText, KindKey;
    var r := edges[i];
    SetTextIsKey(order, nodes[r.start].kinds);
    SetTextIsKey(order, nodes[r.end].kinds);
    KindText(r.kind);
  }

  lemma AlikeIff(order: set<string> -> seq<string>, nodes: seq<Node>, edges: seq<Relationship>, i: nat, j: nat)
    requires InGraph(nodes, edges) && IsOrder(order) && i < |edges| && j < |edges|
    ensures EndpointKeys(order, nodes, edges)[j] == EndpointKeys(order, nodes, edges)[i] <==> AlikeEnds(nodes, edges[j], edges[i])
  {
    hide KindSetKey, KindKey, EndpointKey, SameKinds, IsOrder;
    var r, s := edges[j], edges[i];
    var a, a' := KindSetKey(order, nodes[r.start].kinds), KindSetKey(order, nodes[s.start].kinds);
    var c, c' := KindSetKey(order, nodes[r.end].kinds), KindSetKey(order, nodes[s.end].kinds);
    SameKindsIff(order, nodes[r.start].kinds, nodes[s.start].kinds);
    SameKindsIff(order, nodes[r.end].kinds, nodes[s.end].kinds);
    if EndpointKey(a, KindKey(r.kind), c) == EndpointKey(a', KindKey(s.kind), c') {
      EndpointKeyInjective(a, KindKey(r.kind), c, a', KindKey(s.kind), c');
      KindKeyInjective(r.kind, s.kind);
    }
  }

  lemma EndpointsCount(order: set<string> -> seq<string>, name: string, nodes: seq<Node>, edges: seq<Relationship>)
    requires InGraph(nodes, edges) && IsOrder(order)
    ensures EndpointsCounted(Direct(order, name, nodes, edges), order, nodes, edges)
  {
    hide Tally, Count, EndpointText, EndpointKeys, AlikeEnds, IsOrder, NodeKeys, EdgeKeys, DegreeKeys, InDegrees, OutDegrees, TotalDegrees;
    var m, keys := Direct(order, name, nodes, edges), EndpointKeys(order, nodes, edges);
    assert |keys| == |edges| by { EndpointKeysLength(order, nodes, edges); }
    forall i: nat | i < |edges|
      ensures Count(m.endpointKinds, EndpointText(order, nodes, edges[i])) == |set j: nat | j < |edges| && AlikeEnds(nodes, edges[j], edges[i])|
    {
      EndpointTextIsKey(order, nodes, edges, i);
      TallyCounts(keys, keys[i]);
      forall j: nat | j < |edges|
        ensures keys[j] == keys[i] <==> AlikeEnds(nodes, edges[j], edges[i])
      {
        AlikeIff(order, nodes, edges, i, j);
      }
      assert Positions(keys, keys[i]) == set j: nat | j < |edges| && AlikeEnds(nodes, edges[j], edges[i]);
    }
    forall key | key in m.endpointKinds
      ensures exists i: nat :: i < |edges| && key == EndpointText(order, nodes, edges[i])
    {
      var i := TallyKey(keys, key);
      EndpointTextIsKey(order, nodes, edges, i);
    }
  }

  lemma EndpointKeysLength(order: set<string> -> seq<string>, nodes: seq<Node>, edges: seq<Relationship>)
    requires InGraph(nodes, edges)
    ensures |EndpointKeys(order, nodes, edges)| == |edges|
  {
  }

  /** Every bucket of the direct counts counts what it says. */
  lemma DirectCounts(order: set<string> -> seq<string>, name: string, nodes: seq<Node>, edges: seq<Relationship>)
    requires InGraph(nodes, edges)
    ensures var m := Direct(order, name, nodes, edges);
            && DegreesCounted(m, |nodes|, edges) && EdgeKindsCounted(m, edges)
            && (IsOrder(order) ==> NodeKindsCounted(m, order, nodes) && EndpointsCounted(m, order, nodes, edges))
  {
    hide DegreesCounted, NodeKindsCounted, EdgeKindsCounted, EndpointsCounted, Direct, IsOrder;
    DegreesCount(order, name, nodes, edges);
    EdgeKindsCount(order, name, nodes, edges);
    if IsOrder(order) {
      NodeKindsCount(order, name, nodes, edges);
      EndpointsCount(order, name, nodes, edges);
    }
  }
}
