/** The metrics builder: interned kinds, degree counters and histograms, against direct counts over the observed graph. */
module Metrics {
  import opened Optional
  import opened Decimals
  import opened MetricKeys
  import opened Histograms
  import opened MetricCounts

  const MAX_ORDINALS: nat := 0xFFFF_FFFF

  // ----- Handshakes -----

  function Total(degrees: seq<nat>): nat {
    if degrees == [] then 0 else Total(degrees[..|degrees| - 1]) + degrees[|degrees| - 1]
  }

  lemma {:induction false} TotalUpdate(degrees: seq<nat>, i: nat)
    requires i < |degrees|
    ensures Total(degrees[i := degrees[i] + 1]) == Total(degrees) + 1
  {
    var n := |degrees| - 1;
    if i < n {
      TotalUpdate(degrees[..n], i);
      assert degrees[i := degrees[i] + 1][..n] == degrees[..n][i := degrees[i] + 1];
    } else {
      assert degrees[i := degrees[i] + 1][..n] == degrees[..n];
    }
  }

  lemma {:induction false} TotalZero(degrees: seq<nat>)
    requires forall i :: 0 <= i < |degrees| ==> degrees[i] == 0
    ensures Total(degrees) == 0
  {
    if degrees != [] {
      TotalZero(degrees[..|degrees| - 1]);
    }
  }

  lemma DegreesMore(n: nat, edges: seq<Relationship>, r: Relationship)
    requires r.start < n && r.end < n
    ensures InDegrees(n, edges + [r]) == InDegrees(n, edges)[r.end := InDegrees(n, edges)[r.end] + 1]
    ensures OutDegrees(n, edges + [r]) == OutDegrees(n, edges)[r.start := OutDegrees(n, edges)[r.start] + 1]
  {
    assert (edges + [r])[..|edges|] == edges;
  }

  /** In-degrees and out-degrees both add up to the number of relationships. */
  lemma {:induction false} Handshake(nodes: seq<Node>, edges: seq<Relationship>)
    requires InGraph(nodes, edges)
    ensures Total(InDegrees(|nodes|, edges)) == |edges| && Total(OutDegrees(|nodes|, edges)) == |edges|
  {
    var n := |nodes|;
    if edges == [] {
      TotalZero(InDegrees(n, []));
      TotalZero(OutDegrees(n, []));
    } else {
      var front, r := edges[..|edges| - 1], edges[|edges| - 1];
      Handshake(nodes, front);
      assert edges == front + [r];
      DegreesMore(n, front, r);
      TotalUpdate(InDegrees(n, front), r.end);
      TotalUpdate(OutDegrees(n, front), r.start);
    }
  }

  // ----- The validator -----

  /** `validateGraphMetricHistograms`. */
  method ValidateHistograms(m: GraphMetrics) returns (ok: bool)
    ensures ok <==> HistogramsAddUp(m)
  {
    ok := ValidateSum(m.nodeKinds, m.nodeCount);
    if !ok { return false; }
    ok := ValidateSum(m.inDegrees, m.nodeCount);
    if !ok { return false; }
    ok := ValidateSum(m.outDegrees, m.nodeCount);
    if !ok { return false; }
    ok := ValidateSum(m.totalDegrees, m.nodeCount);
    if !ok { return false; }
    ok := ValidateSum(m.edgeKinds, m.edgeCount);
    if !ok { return false; }
    ok := ValidateSum(m.endpointKinds, m.edgeCount);
  }

  ghost predicate HistogramsAddUp(m: GraphMetrics) {
    && Sum(m.nodeKinds) == m.nodeCount && Sum(m.inDegrees) == m.nodeCount && Sum(m.outDegrees) == m.nodeCount && Sum(m.totalDegrees) == m.nodeCount
    && Sum(m.edgeKinds) == m.edgeCount && Sum(m.endpointKinds) == m.edgeCount
  }

  /** The validator accepts the metrics of every graph. */
  lemma DirectAddsUp(order: set<string> -> seq<string>, name: string, nodes: seq<Node>, edges: seq<Relationship>)
    requires InGraph(nodes, edges)
    ensures HistogramsAddUp(Direct(order, name, nodes, edges))
  {
    hide Tally, Sum;
    TallySum(NodeKeys(order, nodes));
    TallySum(EdgeKeys(edges));
    TallySum(DegreeKeys(InDegrees(|nodes|, edges)));
    TallySum(DegreeKeys(OutDegrees(|nodes|, edges)));
    TallySum(DegreeKeys(TotalDegrees(|nodes|, edges)));
    TallySum(EndpointKeys(order, nodes, edges));
  }

  // ----- Interning -----

  /** Keys have distinct references, and the table finds each. */
  ghost predicate Interned(keys: seq<string>, refs: map<string, nat>) {
    && (forall k :: k in refs ==> refs[k] < |keys| && keys[refs[k]] == k)
    && (forall i :: 0 <= i < |keys| ==> keys[i] in refs && refs[keys[i]] == i)
  }

  lemma InternedMore(keys: seq<string>, refs: map<string, nat>, k: string)
    requires Interned(keys, refs) && k !in refs
    ensures Interned(keys + [k], refs[k := |keys|])
  {
  }

  function KeyOf(keys: seq<string>, ref: nat): string {
    if ref < |keys| then keys[ref] else ""
  }

  predicate RefsFit(keys: seq<string>, refs: seq<nat>, expected: seq<string>) {
    |refs| == |expected| && forall i :: 0 <= i < |refs| ==> refs[i] < |keys| && keys[refs[i]] == expected[i]
  }

  // ----- What the builder's tables mean -----

  /** References of interned kinds, the key of each reference, and how often each was used. */
  datatype KindTable = KindTable(refByKey: map<string, nat>, keys: seq<string>, histogram: Histogram<nat>)

  /** There are no more kind keys than nodes, so that every reference fits 32 bits. */
  ghost predicate NodesFit(order: set<string> -> seq<string>, nodes: seq<Node>, t: KindTable, refs: seq<nat>) {
    && Interned(t.keys, t.refByKey) && RefsFit(t.keys, refs, NodeKeys(order, nodes)) && t.histogram == Tally(refs)
    && |t.keys| <= |refs| <= MAX_ORDINALS
  }

  function KindsOf(edges: seq<Relationship>): seq<string> {
    seq(|edges|, i requires 0 <= i < |edges| => edges[i].kind)
  }

  ghost predicate EdgesFit(edges: seq<Relationship>, names: seq<string>, t: KindTable, refs: seq<nat>) {
    Interned(names, t.refByKey) && t.keys == Mapped(KindKey, names) && RefsFit(names, refs, KindsOf(edges)) && t.histogram == Tally(refs)
  }

  type Refs = (nat, nat, nat)

  function RefAt(refs: seq<nat>, i: nat): nat {
    if i < |refs| then refs[i] else 0
  }

  function EndpointRefs(nodeRefs: seq<nat>, edges: seq<Relationship>, edgeRefs: seq<nat>): seq<Refs> {
    seq(|edges|, i requires 0 <= i < |edges| => (RefAt(nodeRefs, edges[i].start), RefAt(edgeRefs, i), RefAt(nodeRefs, edges[i].end)))
  }

  ghost predicate NumbersFit(nodes: seq<Node>, ordinals: map<nat, nat>) {
    && (forall i :: 0 <= i < |nodes| ==> nodes[i].id.Numeric? && nodes[i].id.number in ordinals && ordinals[nodes[i].id.number] == i)
    && (forall n :: n in ordinals ==> ordinals[n] < |nodes| && nodes[ordinals[n]].id == Numeric(n))
  }

  ghost predicate TextsFit(nodes: seq<Node>, ordinals: map<string, nat>) {
    && (forall i :: 0 <= i < |nodes| ==> nodes[i].id.Text? && nodes[i].id.text in ordinals && ordinals[nodes[i].id.text] == i)
    && (forall t :: t in ordinals ==> ordinals[t] < |nodes| && nodes[ordinals[t]].id == Text(t))
  }

  /** IDs are all numbers or all text, and the table in use gives each node its position. */
  ghost predicate IDsFit(nodes: seq<Node>, numbers: Option<map<nat, nat>>, texts: Option<map<string, nat>>) {
    && !(numbers.Some? && texts.Some?)
    && (numbers.Some? ==> NumbersFit(nodes, numbers.value))
    && (texts.Some? ==> TextsFit(nodes, texts.value))
    && (numbers.None? && texts.None? ==> nodes == [])
  }

  ghost predicate Seen(nodes: seq<Node>, id: SourceID) {
    exists i :: 0 <= i < |nodes| && nodes[i].id == id
  }

  ghost predicate DegreesFit(n: nat, edges: seq<Relationship>, ins: seq<nat>, outs: seq<nat>) {
    ins == InDegrees(n, edges) && outs == OutDegrees(n, edges)
  }

  // ----- Growing the tables -----

  lemma {:induction false} NoDegree(edges: seq<Relationship>, i: nat)
    requires forall k :: 0 <= k < |edges| ==> edges[k].start < i && edges[k].end < i
    ensures InDegree(edges, i) == 0 && OutDegree(edges, i) == 0
  {
    if edges != [] {
      NoDegree(edges[..|edges| - 1], i);
    }
  }

  lemma NodeDegrees(nodes: seq<Node>, edges: seq<Relationship>, ins: seq<nat>, outs: seq<nat>)
    requires InGraph(nodes, edges) && DegreesFit(|nodes|, edges, ins, outs)
    ensures DegreesFit(|nodes| + 1, edges, ins + [0], outs + [0])
  {
    NoDegree(edges, |nodes|);
  }

  lemma NodeMore(order: set<string> -> seq<string>, nodes: seq<Node>, t: KindTable, refs: seq<nat>, t': KindTable, ref: nat, node: Node)
    requires NodesFit(order, nodes, t, refs) && |refs| < MAX_ORDINALS && |t'.keys| <= |t.keys| + 1
    requires Interned(t'.keys, t'.refByKey) && t.keys <= t'.keys && ref < |t'.keys| && t'.keys[ref] == KindSetKey(order, node.kinds)
    requires t'.histogram == Increment(t.histogram, ref)
    ensures NodesFit(order, nodes + [node], t', refs + [ref])
  {
    hide Tally, KindSetKey;
    TallyMore(refs, ref);
    assert NodeKeys(order, nodes + [node]) == NodeKeys(order, nodes) + [KindSetKey(order, node.kinds)];
  }

  lemma EdgeMore(edges: seq<Relationship>, names: seq<string>, t: KindTable, refs: seq<nat>, names': seq<string>, t': KindTable, ref: nat, r: Relationship)
    requires EdgesFit(edges, names, t, refs)
    requires Interned(names', t'.refByKey) && names <= names' && t'.keys == Mapped(KindKey, names') && ref < |names'| && names'[ref] == r.kind
    requires t'.histogram == Increment(t.histogram, ref)
    ensures EdgesFit(edges + [r], names', t', refs + [ref])
  {
    hide Tally, KindKey;
    TallyMore(refs, ref);
    assert KindsOf(edges + [r]) == KindsOf(edges) + [r.kind];
  }

  lemma EndpointMore(nodeRefs: seq<nat>, edges: seq<Relationship>, edgeRefs: seq<nat>, r: Relationship, ref: nat)
    requires |edgeRefs| == |edges| && r.start < |nodeRefs| && r.end < |nodeRefs|
    ensures EndpointRefs(nodeRefs, edges + [r], edgeRefs + [ref]) == EndpointRefs(nodeRefs, edges, edgeRefs) + [(nodeRefs[r.start], ref, nodeRefs[r.end])]
  {
  }

  lemma EndpointSame(nodes: seq<Node>, nodeRefs: seq<nat>, edges: seq<Relationship>, edgeRefs: seq<nat>, ref: nat)
    requires InGraph(nodes, edges) && |nodeRefs| == |nodes|
    ensures EndpointRefs(nodeRefs + [ref], edges, edgeRefs) == EndpointRefs(nodeRefs, edges, edgeRefs)
  {
  }

  // ----- From references to keys -----

  function NameKey(keys: seq<string>): nat -> string {
    (ref: nat) => KeyOf(keys, ref)
  }

  function TripleKey(nodeKeys: seq<string>, edgeKeys: seq<string>): Refs -> string {
    (refs: Refs) => EndpointKey(KeyOf(nodeKeys, refs.0), KeyOf(edgeKeys, refs.1), KeyOf(nodeKeys, refs.2))
  }

  lemma NodeKeysMapped(order: set<string> -> seq<string>, nodes: seq<Node>, t: KindTable, refs: seq<nat>)
    requires NodesFit(order, nodes, t, refs)
    ensures InjectiveOn(NameKey(t.keys), refs) && Mapped(NameKey(t.keys), refs) == NodeKeys(order, nodes) && t.histogram == Tally(refs)
  {
  }

  lemma EdgeKeysMapped(edges: seq<Relationship>, names: seq<string>, t: KindTable, refs: seq<nat>)
    requires EdgesFit(edges, names, t, refs)
    ensures InjectiveOn(NameKey(t.keys), refs) && Mapped(NameKey(t.keys), refs) == EdgeKeys(edges) && t.histogram == Tally(refs)
  {
    hide KindKey, Tally;
    forall x, y | x in refs && y in refs && KeyOf(t.keys, x) == KeyOf(t.keys, y)
      ensures x == y
    {
      KindKeyInjective(names[x], names[y]);
    }
  }

  lemma TriplesInjective(nodeKeys: seq<string>, nodeTable: map<string, nat>, names: seq<string>, table: map<string, nat>, edgeKeys: seq<string>, triples: seq<Refs>)
    requires Interned(nodeKeys, nodeTable) && Interned(names, table) && edgeKeys == Mapped(KindKey, names)
    requires forall i :: 0 <= i < |triples| ==> triples[i].0 < |nodeKeys| && triples[i].1 < |names| && triples[i].2 < |nodeKeys|
    ensures InjectiveOn(TripleKey(nodeKeys, edgeKeys), triples)
  {
    hide KindKey, EndpointKey;
    forall x, y | x in triples && y in triples && TripleKey(nodeKeys, edgeKeys)(x) == TripleKey(nodeKeys, edgeKeys)(y)
      ensures x == y
    {
      EndpointKeyInjective(nodeKeys[x.0], edgeKeys[x.1], nodeKeys[x.2], nodeKeys[y.0], edgeKeys[y.1], nodeKeys[y.2]);
      KindKeyInjective(names[x.1], names[y.1]);
    }
  }

  lemma EndpointsMapped(order: set<string> -> seq<string>, nodes: seq<Node>, nt: KindTable, nodeRefs: seq<nat>,
                        edges: seq<Relationship>, names: seq<string>, et: KindTable, edgeRefs: seq<nat>)
    requires NodesFit(order, nodes, nt, nodeRefs) && EdgesFit(edges, names, et, edgeRefs) && InGraph(nodes, edges)
    ensures InjectiveOn(TripleKey(nt.keys, et.keys), EndpointRefs(nodeRefs, edges, edgeRefs))
    ensures Mapped(TripleKey(nt.keys, et.keys), EndpointRefs(nodeRefs, edges, edgeRefs)) == EndpointKeys(order, nodes, edges)
  {
    hide KindKey, EndpointKey, KindSetKey, Tally;
    var triples := EndpointRefs(nodeRefs, edges, edgeRefs);
    TriplesInjective(nt.keys, nt.refByKey, names, et.refByKey, et.keys, triples);
    forall i | 0 <= i < |edges|
      ensures TripleKey(nt.keys, et.keys)(triples[i]) == EndpointKeys(order, nodes, edges)[i]
    {
      assert NodeKeys(order, nodes)[edges[i].start] == KindSetKey(order, nodes[edges[i].start].kinds);
      assert NodeKeys(order, nodes)[edges[i].end] == KindSetKey(order, nodes[edges[i].end].kinds);
      assert KindsOf(edges)[i] == edges[i].kind;
    }
  }

  // ----- The builder -----

  class MetricsBuilder {
    const graphName: string
    const order: set<string> -> seq<string>
    const isSpace: char -> bool
    var nodeCount: nat
    var edgeCount: nat
    var numericOrdinalByID: Option<map<nat, nat>>
    var stringOrdinalByID: Option<map<string, nat>>
    var nodeKindRefs: seq<nat>
    var inDegrees: seq<nat>
    var outDegrees: seq<nat>
    var nodeTable: KindTable
    var edgeTable: KindTable
    var endpointKindHistogram: Histogram<Refs>
    ghost var nodes: seq<Node>
    ghost var edges: seq<Relationship>
    ghost var edgeKindNames: seq<string>
    ghost var edgeRefs: seq<nat>

    ghost predicate Valid()
      reads this
    {
      && nodeCount == |nodes| && edgeCount == |edges| && InGraph(nodes, edges)
      && IDsFit(nodes, numericOrdinalByID, stringOrdinalByID)
      && NodesFit(order, nodes, nodeTable, nodeKindRefs)
      && EdgesFit(edges, edgeKindNames, edgeTable, edgeRefs)
      && endpointKindHistogram == Tally(EndpointRefs(nodeKindRefs, edges, edgeRefs))
      && DegreesFit(|nodes|, edges, inDegrees, outDegrees)
    }

    constructor (graphName: string, order: set<string> -> seq<string>, isSpace: char -> bool)
      ensures Valid() && nodes == [] && edges == []
      ensures this.graphName == graphName && this.order == order && this.isSpace == isSpace
    {
      this.graphName, this.order, this.isSpace := graphName, order, isSpace;
      nodeCount, edgeCount, numericOrdinalByID, stringOrdinalByID := 0, 0, None, None;
      nodeKindRefs, inDegrees, outDegrees := [], [], [];
      nodeTable, edgeTable, endpointKindHistogram := KindTable(map[], [], map[]), KindTable(map[], [], map[]), map[];
      nodes, edges, edgeKindNames, edgeRefs := [], [], [], [];
    }

    /** `strings.TrimSpace(id) == ""`. */
    predicate Blank(id: string) {
      forall i :: 0 <= i < |id| ==> isSpace(id[i])
    }

    /** `appendNode`; the caller enters the ID in its table. */
    method AppendNode(ghost id: SourceID, kinds: seq<string>) returns (ok: bool, ordinal: nat)
      requires nodeCount == |nodes| && InGraph(nodes, edges) && NodesFit(order, nodes, nodeTable, nodeKindRefs)
      requires endpointKindHistogram == Tally(EndpointRefs(nodeKindRefs, edges, edgeRefs)) && DegreesFit(|nodes|, edges, inDegrees, outDegrees)
      modifies this`nodeTable, this`nodeKindRefs, this`inDegrees, this`outDegrees, this`nodeCount, this`nodes
      ensures nodeCount == |nodes| && InGraph(nodes, edges) && NodesFit(order, nodes, nodeTable, nodeKindRefs)
      ensures endpointKindHistogram == Tally(EndpointRefs(nodeKindRefs, edges, edgeRefs)) && DegreesFit(|nodes|, edges, inDegrees, outDegrees)
      ensures ok == (|old(nodes)| < MAX_ORDINALS) && (ok ==> ordinal == |old(nodes)|)
      ensures nodes == if ok then old(nodes) + [Node(id, kinds)] else old(nodes)
    {
      hide Tally, Interned, NodesFit, DegreesFit, EndpointRefs, KindSetKey, InGraph, Increment;
      RefsLength(order, nodes, nodeTable, nodeKindRefs);
      if |nodeKindRefs| >= MAX_ORDINALS {
        return false, 0;
      }
      ordinal := |nodeKindRefs|;
      var key := MetricKindSetKey(order, kinds);
      var kindRef, table := Intern(key, nodeTable);
      ghost var node := Node(id, kinds);
      NodeMore(order, nodes, nodeTable, nodeKindRefs, table, kindRef, node);
      EndpointSame(nodes, nodeKindRefs, edges, edgeRefs, kindRef);
      NodeDegrees(nodes, edges, inDegrees, outDegrees);
      InGraphMore(nodes, edges, node);
      nodeTable := table;
      nodeKindRefs := nodeKindRefs + [kindRef];
      inDegrees := inDegrees + [0];
      outDegrees := outDegrees + [0];
      nodeCount := nodeCount + 1;
      nodes := nodes + [node];
      ok := true;
    }

    /** `observeNode`: a text ID. */
    method ObserveNode(id: string, kinds: seq<string>) returns (ok: bool)
      requires Valid()
      modifies this
      ensures Valid() && edges == old(edges) && nodes == if ok then old(nodes) + [Node(Text(id), kinds)] else old(nodes)
      ensures ok <==> !Blank(id) && old(numericOrdinalByID).None? && !Seen(old(nodes), Text(id)) && |old(nodes)| <= 4294967294
    {
      hide NodesFit, EdgesFit, DegreesFit, EndpointRefs, Tally, NumbersFit;
      if Blank(id) || numericOrdinalByID.Some? {
        return false;
      }
      if stringOrdinalByID.None? {
        stringOrdinalByID := Some(map[]);
      }
      SeenText(nodes, stringOrdinalByID.value, id);
      if id in stringOrdinalByID.value {
        return false;
      }
      ghost var before := nodes;
      var ordinal;
      ok, ordinal := AppendNode(Text(id), kinds);
      if ok {
        TextMore(before, stringOrdinalByID.value, id, kinds);
        stringOrdinalByID := Some(stringOrdinalByID.value[id := ordinal]);
      }
    }

    /** `observeDatabaseNode`: a numeric ID. */
    method ObserveDatabaseNode(id: nat, kinds: seq<string>) returns (ok: bool)
      requires Valid()
      modifies this
      ensures Valid() && edges == old(edges) && nodes == if ok then old(nodes) + [Node(Numeric(id), kinds)] else old(nodes)
      ensures ok <==> old(stringOrdinalByID).None? && !Seen(old(nodes), Numeric(id)) && |old(nodes)| <= 4294967294
    {
      hide NodesFit, EdgesFit, DegreesFit, EndpointRefs, Tally, TextsFit;
      if stringOrdinalByID.Some? {
        return false;
      }
      if numericOrdinalByID.None? {
        numericOrdinalByID := Some(map[]);
      }
      SeenNumber(nodes, numericOrdinalByID.value, id);
      if id in numericOrdinalByID.value {
        return false;
      }
      ghost var before := nodes;
      var ordinal;
      ok, ordinal := AppendNode(Numeric(id), kinds);
      if ok {
        NumberMore(before, numericOrdinalByID.value, id, kinds);
        numericOrdinalByID := Some(numericOrdinalByID.value[id := ordinal]);
      }
    }

    /** `observeRelationshipOrdinals`. */
    method ObserveOrdinals(startOrdinal: nat, endOrdinal: nat, kind: string)
      requires Valid() && startOrdinal < |nodes| && endOrdinal < |nodes|
      modifies this`edgeTable, this`endpointKindHistogram, this`outDegrees, this`inDegrees, this`edgeCount, this`edges, this`edgeRefs, this`edgeKindNames
      ensures Valid() && edges == old(edges) + [Relationship(startOrdinal, endOrdinal, kind)]
    {
      hide Tally, Interned, NodesFit, EdgesFit, EndpointRefs, KindKey, IDsFit, Mapped, DegreesFit, InGraph, Increment;
      ghost var r := Relationship(startOrdinal, endOrdinal, kind);
      RefsLength(order, nodes, nodeTable, nodeKindRefs);
      EdgeRefsLength(edges, edgeKindNames, edgeTable, edgeRefs);
      var ref, table;
      ghost var names;
      ref, table, names := InternEdge(kind, edgeTable, edgeKindNames);
      var refs := (nodeKindRefs[startOrdinal], ref, nodeKindRefs[endOrdinal]);
      EdgeMore(edges, edgeKindNames, edgeTable, edgeRefs, names, table, ref, r);
      EndpointMore(nodeKindRefs, edges, edgeRefs, r, ref);
      TallyMore(EndpointRefs(nodeKindRefs, edges, edgeRefs), refs);
      DegreesFitMore(|nodes|, edges, inDegrees, outDegrees, r);
      InGraphEdge(nodes, edges, r);
      edgeTable := table;
      endpointKindHistogram := Increment(endpointKindHistogram, refs);
      outDegrees := outDegrees[startOrdinal := outDegrees[startOrdinal] + 1];
      inDegrees := inDegrees[endOrdinal := inDegrees[endOrdinal] + 1];
      edgeCount := edgeCount + 1;
      edges, edgeRefs, edgeKindNames := edges + [r], edgeRefs + [ref], names;
    }

    /** `observeRelationship`: text endpoints. */
    method ObserveRelationship(startID: string, endID: string, kind: string) returns (ok: bool)
      requires Valid()
      modifies this
      ensures Valid() && nodes == old(nodes)
      ensures ok <==> Seen(nodes, Text(startID)) && Seen(nodes, Text(endID))
      ensures !ok ==> edges == old(edges)
      ensures ok ==> |edges| == |old(edges)| + 1 && edges[..|old(edges)|] == old(edges) && edges[|old(edges)|].kind == kind
      ensures ok ==> nodes[edges[|old(edges)|].start].id == Text(startID) && nodes[edges[|old(edges)|].end].id == Text(endID)
    {
      hide NodesFit, EdgesFit, DegreesFit, EndpointRefs, Tally;
      if stringOrdinalByID.None? {
        return false;
      }
      SeenText(nodes, stringOrdinalByID.value, startID);
      SeenText(nodes, stringOrdinalByID.value, endID);
      if startID !in stringOrdinalByID.value || endID !in stringOrdinalByID.value {
        return false;
      }
      ObserveOrdinals(stringOrdinalByID.value[startID], stringOrdinalByID.value[endID], kind);
      ok := true;
    }

    /** `observeDatabaseRelationship`: numeric endpoints. */
    method ObserveDatabaseRelationship(startID: nat, endID: nat, kind: string) returns (ok: bool)
      requires Valid()
      modifies this
      ensures Valid() && nodes == old(nodes)
      ensures ok <==> Seen(nodes, Numeric(startID)) && Seen(nodes, Numeric(endID))
      ensures !ok ==> edges == old(edges)
      ensures ok ==> |edges| == |old(edges)| + 1 && edges[..|old(edges)|] == old(edges) && edges[|old(edges)|].kind == kind
      ensures ok ==> nodes[edges[|old(edges)|].start].id == Numeric(startID) && nodes[edges[|old(edges)|].end].id == Numeric(endID)
    {
      hide NodesFit, EdgesFit, DegreesFit, EndpointRefs, Tally;
      if numericOrdinalByID.None? {
        return false;
      }
      SeenNumber(nodes, numericOrdinalByID.value, startID);
      SeenNumber(nodes, numericOrdinalByID.value, endID);
      if startID !in numericOrdinalByID.value || endID !in numericOrdinalByID.value {
        return false;
      }
      ObserveOrdinals(numericOrdinalByID.value[startID], numericOrdinalByID.value[endID], kind);
      ok := true;
    }

    /** `finalize`: the histograms by key equal the direct counts, so no bucket was overwritten. */
    method Finalize() returns (m: GraphMetrics)
      requires Valid()
      ensures m == Direct(order, graphName, nodes, edges) && HistogramsAddUp(m)
      ensures m.name == graphName && m.nodeCount == |nodes| && m.edgeCount == |edges|
      ensures DegreesCounted(m, |nodes|, edges) && EdgeKindsCounted(m, edges)
      ensures IsOrder(order) ==> NodeKindsCounted(m, order, nodes) && EndpointsCounted(m, order, nodes, edges)
    {
      hide DegreesCounted, NodeKindsCounted, EdgeKindsCounted, EndpointsCounted, IsOrder, Tally, Interned, RefsFit, EndpointRefs, Mapped, InjectiveOn, NodeKeys, EdgeKeys, EndpointKeys, HistogramsAddUp, IDsFit, Sum;
      NodeKeysMapped(order, nodes, nodeTable, nodeKindRefs);
      EdgeKeysMapped(edges, edgeKindNames, edgeTable, edgeRefs);
      EndpointsMapped(order, nodes, nodeTable, nodeKindRefs, edges, edgeKindNames, edgeTable, edgeRefs);
      var nodeKinds := RenameTally(NameKey(nodeTable.keys), nodeTable.histogram, nodeKindRefs);
      var edgeKinds := RenameTally(NameKey(edgeTable.keys), edgeTable.histogram, edgeRefs);
      var endpointKinds := RenameTally(TripleKey(nodeTable.keys, edgeTable.keys), endpointKindHistogram, EndpointRefs(nodeKindRefs, edges, edgeRefs));
      RefsLength(order, nodes, nodeTable, nodeKindRefs);
      var ins, outs, totals := TallyDegrees(inDegrees, outDegrees, |nodeKindRefs|);
      assert Sums(inDegrees, outDegrees) == TotalDegrees(|nodes|, edges) by { SumsAreTotals(|nodes|, edges); }
      m := GraphMetrics(graphName, nodeCount, edgeCount, nodeKinds, edgeKinds, ins, outs, totals, endpointKinds);
      DirectAddsUp(order, graphName, nodes, edges);
      DirectCounts(order, graphName, nodes, edges);
    }
  }

  // ----- Helpers of the builder -----

  lemma RefsLength(order: set<string> -> seq<string>, nodes: seq<Node>, t: KindTable, refs: seq<nat>)
    requires NodesFit(order, nodes, t, refs)
    ensures |refs| == |nodes| && Interned(t.keys, t.refByKey) && |t.keys| <= |refs| <= MAX_ORDINALS
  {
  }

  lemma EdgeRefsLength(edges: seq<Relationship>, names: seq<string>, t: KindTable, refs: seq<nat>)
    requires EdgesFit(edges, names, t, refs)
    ensures |refs| == |edges| && Interned(names, t.refByKey) && t.keys == Mapped(KindKey, names)
  {
  }

  lemma InGraphMore(nodes: seq<Node>, edges: seq<Relationship>, node: Node)
    requires InGraph(nodes, edges)
    ensures InGraph(nodes + [node], edges)
  {
  }

  lemma InGraphEdge(nodes: seq<Node>, edges: seq<Relationship>, r: Relationship)
    requires InGraph(nodes, edges) && r.start < |nodes| && r.end < |nodes|
    ensures InGraph(nodes, edges + [r])
  {
  }

  lemma DegreesFitMore(n: nat, edges: seq<Relationship>, ins: seq<nat>, outs: seq<nat>, r: Relationship)
    requires DegreesFit(n, edges, ins, outs) && r.start < n && r.end < n
    ensures |ins| == n && |outs| == n && DegreesFit(n, edges + [r], ins[r.end := ins[r.end] + 1], outs[r.start := outs[r.start] + 1])
  {
    DegreesMore(n, edges, r);
  }

  lemma SeenText(nodes: seq<Node>, ordinals: map<string, nat>, id: string)
    requires TextsFit(nodes, ordinals)
    ensures id in ordinals <==> Seen(nodes, Text(id))
    ensures id in ordinals ==> ordinals[id] < |nodes| && nodes[ordinals[id]].id == Text(id)
  {
  }

  lemma SeenNumber(nodes: seq<Node>, ordinals: map<nat, nat>, id: nat)
    requires NumbersFit(nodes, ordinals)
    ensures id in ordinals <==> Seen(nodes, Numeric(id))
    ensures id in ordinals ==> ordinals[id] < |nodes| && nodes[ordinals[id]].id == Numeric(id)
  {
  }

  lemma TextMore(nodes: seq<Node>, ordinals: map<string, nat>, id: string, kinds: seq<string>)
    requires TextsFit(nodes, ordinals) && id !in ordinals
    ensures TextsFit(nodes + [Node(Text(id), kinds)], ordinals[id := |nodes|])
  {
  }

  lemma NumberMore(nodes: seq<Node>, ordinals: map<nat, nat>, id: nat, kinds: seq<string>)
    requires NumbersFit(nodes, ordinals) && id !in ordinals
    ensures NumbersFit(nodes + [Node(Numeric(id), kinds)], ordinals[id := |nodes|])
  {
  }

  /** `internNodeKind`, and the count of the reference. */
  method Intern(key: string, t: KindTable) returns (ref: nat, t': KindTable)
    requires Interned(t.keys, t.refByKey) && |t.keys| < MAX_ORDINALS
    ensures Interned(t'.keys, t'.refByKey) && t.keys <= t'.keys && |t'.keys| <= |t.keys| + 1 && ref < |t'.keys| && t'.keys[ref] == key
    ensures t'.histogram == Increment(t.histogram, ref)
  {
    hide Increment;
    if key in t.refByKey {
      ref := t.refByKey[key];
      return ref, t.(histogram := Increment(t.histogram, ref));
    }
    InternedMore(t.keys, t.refByKey, key);
    ref := |t.keys| % 0x1_0000_0000;
    return ref, KindTable(t.refByKey[key := ref], t.keys + [key], Increment(t.histogram, ref));
  }

  /** `internEdgeKind`: the table is keyed by the kind, the list holds its key. */
  method InternEdge(kind: string, t: KindTable, ghost names: seq<string>) returns (ref: nat, t': KindTable, ghost names': seq<string>)
    requires Interned(names, t.refByKey) && t.keys == Mapped(KindKey, names)
    ensures Interned(names', t'.refByKey) && names <= names' && t'.keys == Mapped(KindKey, names') && ref < |names'| && names'[ref] == kind
    ensures t'.histogram == Increment(t.histogram, ref)
  {
    hide Increment, KindKey;
    if kind in t.refByKey {
      ref := t.refByKey[kind];
      return ref, t.(histogram := Increment(t.histogram, ref)), names;
    }
    InternedMore(names, t.refByKey, kind);
    assert Mapped(KindKey, names + [kind]) == t.keys + [KindKey(kind)];
    ref := |t.keys|;
    return ref, KindTable(t.refByKey[kind := ref], t.keys + [KindKey(kind)], Increment(t.histogram, ref)), names + [kind];
  }

  method RenameTally<A(==, !new)>(f: A -> string, h: Histogram<A>, ghost s: seq<A>) returns (h': Histogram<string>)
    requires h == Tally(s) && InjectiveOn(f, s)
    ensures h' == Tally(Mapped(f, s))
  {
    TallyIs(s);
    h' := Rename(f, h);
    RenamedTally(f, s, h');
  }

  function Sums(ins: seq<nat>, outs: seq<nat>): seq<nat>
    requires |ins| == |outs|
  {
    seq(|ins|, i requires 0 <= i < |ins| => ins[i] + outs[i])
  }

  lemma SumsAreTotals(n: nat, edges: seq<Relationship>)
    ensures |InDegrees(n, edges)| == |OutDegrees(n, edges)| && Sums(InDegrees(n, edges), OutDegrees(n, edges)) == TotalDegrees(n, edges)
  {
  }

  /** The degree loop of `finalize`. */
  method TallyDegrees(inDegrees: seq<nat>, outDegrees: seq<nat>, n: nat) returns (ins: Histogram<string>, outs: Histogram<string>, totals: Histogram<string>)
    requires |inDegrees| == |outDegrees| == n
    ensures ins == Tally(DegreeKeys(inDegrees)) && outs == Tally(DegreeKeys(outDegrees)) && totals == Tally(DegreeKeys(Sums(inDegrees, outDegrees)))
  {
    hide Tally, Increment, DegreeKey;
    ins, outs, totals := map[], map[], map[];
    assert Tally(DegreeKeys(inDegrees)[..0]) == map[] && Tally(DegreeKeys(outDegrees)[..0]) == map[] && Tally(DegreeKeys(Sums(inDegrees, outDegrees))[..0]) == map[] by {
      NoTally();
    }
    for i := 0 to n
      invariant ins == Tally(DegreeKeys(inDegrees)[..i]) && outs == Tally(DegreeKeys(outDegrees)[..i])
      invariant totals == Tally(DegreeKeys(Sums(inDegrees, outDegrees))[..i])
    {
      TallyNext(DegreeKeys(inDegrees), i);
      TallyNext(DegreeKeys(outDegrees), i);
      TallyNext(DegreeKeys(Sums(inDegrees, outDegrees)), i);
      ins := Increment(ins, DegreeKey(inDegrees[i]));
      outs := Increment(outs, DegreeKey(outDegrees[i]));
      totals := Increment(totals, DegreeKey(inDegrees[i] + outDegrees[i]));
    }
    assert DegreeKeys(inDegrees)[..n] == DegreeKeys(inDegrees) && DegreeKeys(outDegrees)[..n] == DegreeKeys(outDegrees);
    assert DegreeKeys(Sums(inDegrees, outDegrees))[..n] == DegreeKeys(Sums(inDegrees, outDegrees));
  }

  lemma NoTally()
    ensures Tally<string>([]) == map[]
  {
  }

  lemma TallyNext(keys: seq<string>, i: nat)
    requires i < |keys|
    ensures Tally(keys[..i + 1]) == Increment(Tally(keys[..i]), keys[i])
  {
    assert keys[..i + 1] == keys[..i] + [keys[i]];
    TallyMore(keys[..i], keys[i]);
  }
}
