/** The checkpoints a dump can make durable, one for each spot in its progress, and why a resume accepts each of them. */
module DumpSpots {
  import opened Optional
  import Metrics
  import opened DumpModel
  import opened DumpProtocol
  import opened DumpShards

  /** `g` graphs are complete; inside graph `g`, `j` shards of `phase` are committed. */
  datatype Spot = Between(g: nat) | Within(g: nat, phase: Phase, j: nat)

  function Shards(c: Config, s: GraphSource, phase: Phase): nat
    requires 0 < c.shardSize
  {
    ShardCount(|s.Rows(phase)|, c.shardSize)
  }

  ghost predicate ValidSpot(c: Config, spot: Spot) {
    && ValidConfig(c)
    && spot.g <= |c.sources|
    && (spot.Within? ==> spot.g < |c.sources| && spot.j <= Shards(c, c.sources[spot.g], spot.phase))
    && TakenAt(c, spot)
  }

  /** The metrics had room for the first `n` nodes, and these and the first `e` relationships could be encoded. */
  ghost predicate Taken(c: Config, s: GraphSource, n: nat, e: nat) {
    n <= Metrics.MAX_ORDINALS && RowsEncode(c, s.nodes, n) && RowsEncode(c, s.edges, e)
  }

  /** All rows of the complete graphs and the committed ones of the graph in progress were taken. */
  ghost predicate TakenAt(c: Config, spot: Spot) {
    && (forall h :: 0 <= h < spot.g && h < |c.sources| ==> Taken(c, c.sources[h], |c.sources[h].nodes|, |c.sources[h].edges|))
    && (spot.Within? && spot.g < |c.sources| ==>
          var s := c.sources[spot.g];
          if spot.phase == Nodes then Taken(c, s, Cut(|s.nodes|, c.shardSize, spot.j), 0)
          else Taken(c, s, |s.nodes|, Cut(|s.edges|, c.shardSize, spot.j)))
  }

  // ----- The empty relationship kind -----

  /** A resume after `j` relationship shards can read them and the nodes back, and none of the later ones of the first `e`
      relationships has the empty string for its kind. */
  ghost predicate LostAt(c: Config, s: GraphSource, j: nat, e: nat) {
    && Cut(|s.edges|, c.shardSize, j) <= e <= |s.edges|
    && RowsFit(c, s.nodes, |s.nodes|) && RowsFit(c, s.edges, Cut(|s.edges|, c.shardSize, j))
    && (forall i :: Cut(|s.edges|, c.shardSize, j) <= i < e ==> "" !in ScannedKinds(c, s.edges[i]))
  }

  ghost predicate CanLose(c: Config, s: GraphSource, e: nat) {
    exists j: nat :: LostAt(c, s, j, e)
  }

  /** The relationship kinds recorded for the first `e` relationships: all of them, or without the empty one if it can be lost. */
  ghost predicate KindsRecorded(c: Config, s: GraphSource, e: nat, kinds: set<Kind>)
    requires e <= |s.edges|
  {
    var all := KindsOfRows(c, s.edges[..e]);
    kinds == all || (kinds == all - {""} && CanLose(c, s, e))
  }

  function CursorAt(rows: seq<Row>, pos: nat): Option<nat>
    requires pos <= |rows|
  {
    if pos == 0 then None else Some(rows[pos - 1].id)
  }

  function CommittedAt(c: Config, s: GraphSource, phase: Phase, j: nat): seq<FileEntry>
    requires 0 < c.shardSize
  {
    if phase == Nodes then Committed(c, s, j, 0) else Committed(c, s, Shards(c, s, Nodes), j)
  }

  function CurrentAt(c: Config, g: nat, phase: Phase, j: nat): Current
    requires 0 < c.shardSize && g < |c.sources|
  {
    var s := c.sources[g];
    var rows := s.Rows(phase);
    CutBound(|rows|, c.shardSize, j);
    Current(g, s.name, Some(SnapshotOf(s)), phase, CursorAt(rows, Cut(|rows|, c.shardSize, j)), CommittedAt(c, s, phase, j))
  }

  /** The manifest of the first `g` graphs. A schema is not determined by the source alone, so it is a parameter. */
  function ManifestAt(c: Config, g: nat, schemas: seq<GraphSchema>): Manifest
    requires 0 < c.shardSize && g <= |c.sources|
  {
    Manifest(|c.sources|,
             seq(g, h requires 0 <= h < g => ExpectedGraph(c, c.sources[h])),
             schemas,
             seq(g, h requires 0 <= h < g => ExpectedMetrics(c, c.sources[h])),
             Totals(c, Nodes, g), Totals(c, Edges, g))
  }

  function CheckpointAt(c: Config, spot: Spot, schemas: seq<GraphSchema>): Checkpoint
    requires 0 < c.shardSize && spot.g <= |c.sources| && (spot.Within? ==> spot.g < |c.sources|)
  {
    Checkpoint(IdentityOf(c), ManifestAt(c, spot.g, schemas), if spot.Within? then Some(CurrentAt(c, spot.g, spot.phase, spot.j)) else None)
  }

  /** The schema a dump may record: all kinds, except that the empty relationship kind may be missing if it can be lost. */
  ghost predicate SchemaFits(c: Config, s: GraphSource, schema: GraphSchema) {
    && schema.name == s.name
    && schema.nodeKinds == KindsOfRows(c, s.nodes)
    && KindsRecorded(c, s, |s.edges|, schema.edgeKinds)
  }

  ghost predicate SchemasFit(c: Config, schemas: seq<GraphSchema>, g: nat) {
    && |schemas| == g <= |c.sources|
    && forall h :: 0 <= h < g ==> SchemaFits(c, c.sources[h], schemas[h])
  }

  /** How many shards of graph `h` and `phase` are committed at a spot. */
  function DoneShards(c: Config, spot: Spot, h: nat, phase: Phase): nat
    requires 0 < c.shardSize && h < |c.sources|
  {
    if h < spot.g then Shards(c, c.sources[h], phase)
    else if h == spot.g && spot.Within? then
      if phase == spot.phase then spot.j else if phase == Nodes then Shards(c, c.sources[h], Nodes) else 0
    else 0
  }

  function EntryOf(c: Config, h: nat, phase: Phase, k: nat): FileEntry
    requires h < |c.sources|
  {
    ShardEntry(c, c.sources[h].name, phase, c.sources[h].Rows(phase), k)
  }

  // ----- Validating the entries of one graph -----

  lemma CommittedIndex(c: Config, s: GraphSource, a: nat, b: nat, i: nat)
    requires i < a + b
    ensures |Committed(c, s, a, b)| == a + b
    ensures i < a ==> Committed(c, s, a, b)[i] == ShardEntry(c, s.name, Nodes, s.nodes, i)
    ensures i >= a ==> Committed(c, s, a, b)[i] == ShardEntry(c, s.name, Edges, s.edges, i - a)
    ensures Committed(c, s, a, b)[..i + 1] == if i < a then Committed(c, s, i + 1, 0) else Committed(c, s, a, i + 1 - a)
  {
    var files := Committed(c, s, a, b);
    if i < a {
      assert files[..i + 1] == Committed(c, s, i + 1, 0);
    } else {
      assert files[..i + 1] == Committed(c, s, a, i + 1 - a);
    }
  }

  lemma CommittedPaths(c: Config, s: GraphSource, a: nat, b: nat)
    ensures NodesFirst(Committed(c, s, a, b))
    ensures FragmentPathsAccepted(s.name, Committed(c, s, a, b))
  {
    hide PhaseFiles, ShardEntry, Committed;
    var files := Committed(c, s, a, b);
    assert |files| == a + b by { CommittedLength(c, s, a, b); }
    forall i | 0 <= i < |files|
      ensures files[i].path == Fragment(s.name, files[i].phase, |PhaseFiles(files[..i + 1], files[i].phase)|)
      ensures files[i].path == if i < a then Fragment(s.name, Nodes, i + 1) else Fragment(s.name, Edges, i - a + 1)
      ensures files[i].phase == if i < a then Nodes else Edges
    {
      CommittedIndex(c, s, a, b, i);
      if i < a {
        PhaseFilesOf(c, s, i + 1, 0);
        EntryShape(c, s.name, Nodes, s.nodes, i);
      } else {
        PhaseFilesOf(c, s, a, i + 1 - a);
        EntryShape(c, s.name, Edges, s.edges, i - a);
      }
    }
  }

  lemma CommittedLength(c: Config, s: GraphSource, a: nat, b: nat)
    ensures |Committed(c, s, a, b)| == a + b
  {
  }

  lemma EntryShape(c: Config, name: string, phase: Phase, rows: seq<Row>, j: nat)
    ensures ShardEntry(c, name, phase, rows, j).path == Fragment(name, phase, j + 1)
    ensures ShardEntry(c, name, phase, rows, j).phase == phase
  {
  }

  lemma CommittedTotals(c: Config, s: GraphSource, a: nat, b: nat)
    ensures PhaseTotal(Committed(c, s, a, b), Nodes) == Cut(|s.nodes|, c.shardSize, a)
    ensures PhaseTotal(Committed(c, s, a, b), Edges) == Cut(|s.edges|, c.shardSize, b)
  {
    PhaseFilesOf(c, s, a, b);
    EntriesTotal(c, s.name, Nodes, s.nodes, a);
    EntriesTotal(c, s.name, Edges, s.edges, b);
  }

  lemma EntryNonEmpty(c: Config, name: string, phase: Phase, rows: seq<Row>, j: nat)
    requires 0 < c.shardSize && j < ShardCount(|rows|, c.shardSize)
    ensures ShardEntry(c, name, phase, rows, j).count > 0
  {
    CutFull(|rows|, c.shardSize, j);
    assert Cut(|rows|, c.shardSize, j + 1) > Cut(|rows|, c.shardSize, j);
  }

  lemma EntriesNonEmpty(c: Config, s: GraphSource, a: nat, b: nat)
    requires 0 < c.shardSize && a <= Shards(c, s, Nodes) && b <= Shards(c, s, Edges)
    ensures forall i :: 0 <= i < |Committed(c, s, a, b)| ==> Committed(c, s, a, b)[i].count > 0
  {
    forall i | 0 <= i < |Committed(c, s, a, b)|
      ensures Committed(c, s, a, b)[i].count > 0
    {
      CommittedLength(c, s, a, b);
      CommittedIndex(c, s, a, b, i);
      if i < a {
        EntryNonEmpty(c, s.name, Nodes, s.nodes, i);
      } else {
        EntryNonEmpty(c, s.name, Edges, s.edges, i - a);
      }
    }
  }

  // ----- Validating the completed graphs -----

  lemma AllFilesTotals(c: Config, s: GraphSource)
    requires 0 < c.shardSize
    ensures AllFiles(c, s) == Committed(c, s, NodeShards(c, s), EdgeShards(c, s))
    ensures PhaseTotal(AllFiles(c, s), Nodes) == |s.nodes| && PhaseTotal(AllFiles(c, s), Edges) == |s.edges|
  {
    CommittedTotals(c, s, NodeShards(c, s), EdgeShards(c, s));
    CutFull(|s.nodes|, c.shardSize, NodeShards(c, s));
    CutFull(|s.edges|, c.shardSize, EdgeShards(c, s));
  }

  lemma ExpectedMetricsMatch(c: Config, s: GraphSource)
    requires 0 < c.shardSize && ValidSource(s)
    ensures MetricsMatch(ExpectedMetrics(c, s), ExpectedGraph(c, s))
  {
    assert s.nodes[..|s.nodes|] == s.nodes && s.edges[..|s.edges|] == s.edges;
    assert ExpectedMetrics(c, s).observed == Seen(c, s, |s.nodes|, |s.edges|);
    NodesSeenPrefix(c, s, |s.nodes|, |s.edges|);
  }

  /** What the manifest validation asks of one graph and its metrics. */
  ghost predicate GraphAccepted(g: GraphManifest, m: GraphMetrics, name: string) {
    && g.name == name && m.name == name && name != ""
    && NodesFirst(g.files) && PhaseTotal(g.files, Nodes) == g.nodeCount && PhaseTotal(g.files, Edges) == g.edgeCount
    && MetricsMatch(m, g)
  }

  lemma AcceptsGraph(c: Config, g: nat, schemas: seq<GraphSchema>, h: nat)
    requires ValidConfig(c) && h < g <= |c.sources|
    ensures GraphAccepted(ManifestAt(c, g, schemas).graphs[h], ManifestAt(c, g, schemas).metrics[h], c.sources[h].name)
  {
    hide MetricsMatch, ExpectedMetrics, AllFiles, NodesFirst, PhaseTotal, Totals;
    AllFilesTotals(c, c.sources[h]);
    CommittedPaths(c, c.sources[h], NodeShards(c, c.sources[h]), EdgeShards(c, c.sources[h]));
    ExpectedMetricsMatch(c, c.sources[h]);
    MetricsName(c, c.sources[h]);
  }

  lemma SourceNamesDiffer(c: Config, g: nat, h: nat)
    requires ValidConfig(c) && g < h < |c.sources|
    ensures c.sources[g].name != c.sources[h].name
  {
  }

  lemma ManifestSizes(c: Config, g: nat, schemas: seq<GraphSchema>)
    requires 0 < c.shardSize && g <= |c.sources|
    ensures |ManifestAt(c, g, schemas).graphs| == g && |ManifestAt(c, g, schemas).metrics| == g
  {
  }

  /** Graph and metrics entries that are accepted one by one, under different names. */
  ghost predicate EachAccepted(graphs: seq<GraphManifest>, metrics: seq<GraphMetrics>, names: seq<string>) {
    && |graphs| == |metrics| == |names|
    && (forall i, j :: 0 <= i < j < |names| ==> names[i] != names[j])
    && (forall h :: 0 <= h < |names| ==> GraphAccepted(graphs[h], metrics[h], names[h]))
  }

  lemma EachGraphsAccepted(graphs: seq<GraphManifest>, metrics: seq<GraphMetrics>, names: seq<string>)
    requires EachAccepted(graphs, metrics, names)
    ensures GraphsAccepted(graphs) && DistinctGraphs(graphs)
  {
    hide NodesFirst, PhaseTotal, MetricsMatch;
  }

  lemma EachMetricsAccepted(graphs: seq<GraphManifest>, metrics: seq<GraphMetrics>, names: seq<string>)
    requires EachAccepted(graphs, metrics, names)
    ensures MetricsAccepted(metrics, graphs)
  {
    hide NodesFirst, PhaseTotal, MetricsMatch;
    forall i | 0 <= i < |metrics|
      ensures MatchesSome(metrics[i], graphs)
    {
      assert GraphAccepted(graphs[i], metrics[i], names[i]);
      assert MetricsMatch(metrics[i], graphs[i]);
    }
  }

  lemma AcceptsManifest(c: Config, g: nat, schemas: seq<GraphSchema>)
    requires ValidConfig(c) && g <= |c.sources|
    ensures ManifestAccepted(ManifestAt(c, g, schemas).(graphCount := g))
  {
    assert 0 < c.shardSize;
    hide ManifestAt, ValidConfig, GraphAccepted, GraphsAccepted, DistinctGraphs, MetricsAccepted;
    ManifestSizes(c, g, schemas);
    var m := ManifestAt(c, g, schemas);
    var names := seq(g, h requires 0 <= h < g => c.sources[h].name);
    forall h | 0 <= h < g
      ensures GraphAccepted(m.graphs[h], m.metrics[h], names[h])
    {
      AcceptsGraph(c, g, schemas, h);
    }
    forall i, j | 0 <= i < j < g
      ensures names[i] != names[j]
    {
      SourceNamesDiffer(c, i, j);
    }
    EachGraphsAccepted(m.graphs, m.metrics, names);
    EachMetricsAccepted(m.graphs, m.metrics, names);
  }

  lemma MetricsName(c: Config, s: GraphSource)
    ensures ExpectedMetrics(c, s).name == s.name
  {
  }

  lemma AcceptsGraphPaths(c: Config, g: nat, schemas: seq<GraphSchema>, h: nat)
    requires ValidConfig(c) && h < g <= |c.sources|
    ensures FragmentPathsAccepted(c.sources[h].name, ManifestAt(c, g, schemas).graphs[h].files)
  {
    AllFilesTotals(c, c.sources[h]);
    CommittedPaths(c, c.sources[h], NodeShards(c, c.sources[h]), EdgeShards(c, c.sources[h]));
  }

  // ----- Validating the graph in progress -----

  lemma AcceptsCurrent(c: Config, spot: Spot, schemas: seq<GraphSchema>)
    requires ValidSpot(c, spot) && spot.Within?
    ensures CurrentAccepted(CheckpointAt(c, spot, schemas), CurrentAt(c, spot.g, spot.phase, spot.j), |c.sources|)
  {
    hide FragmentPathsAccepted, NodesFirst, PhaseTotal, Committed, ExpectedGraph, ExpectedMetrics, Totals;
    var s := c.sources[spot.g];
    var a, b := if spot.phase == Nodes then spot.j else Shards(c, s, Nodes), if spot.phase == Nodes then 0 else spot.j;
    var cur := CurrentAt(c, spot.g, spot.phase, spot.j);
    assert cur.files == Committed(c, s, a, b);
    CommittedPaths(c, s, a, b);
    CommittedTotals(c, s, a, b);
    EntriesNonEmpty(c, s, a, b);
    CommittedLength(c, s, a, b);
    CutBound(|s.nodes|, c.shardSize, a);
    CutBound(|s.edges|, c.shardSize, b);
    CutFull(|s.nodes|, c.shardSize, Shards(c, s, Nodes));
  }

  /** A resume accepts the checkpoint of every spot. */
  lemma AcceptsCheckpoint(c: Config, spot: Spot, schemas: seq<GraphSchema>)
    requires ValidSpot(c, spot) && |schemas| == spot.g
    ensures CheckpointAccepted(CheckpointAt(c, spot, schemas), |c.sources|)
  {
    hide ManifestAccepted, FragmentPathsAccepted, CurrentAccepted, CurrentAt, ExpectedMetrics, Totals, AllFiles;
    var ck := CheckpointAt(c, spot, schemas);
    AcceptsManifest(c, spot.g, schemas);
    forall h | 0 <= h < |ck.manifest.graphs|
      ensures h < |ck.identity.graphs| && ck.manifest.graphs[h].name == ck.identity.graphs[h]
      ensures FragmentPathsAccepted(ck.manifest.graphs[h].name, ck.manifest.graphs[h].files)
    {
      AcceptsGraphPaths(c, spot.g, schemas, h);
    }
    if spot.Within? {
      AcceptsCurrent(c, spot, schemas);
    }
  }
}
