/** What a dump reads and writes: source rows, fragments, checkpoint, manifest, and the shards a source must become. */
module DumpModel {
  import opened Optional
  import Metrics

  type Kind = string
  type Props = string

  datatype Phase = Nodes | Edges

  /** Scrub action counts. */
  datatype Counts = Counts(preserve: nat, pseudonymize: nat, redact: nat, shift: nat) {
    function Plus(other: Counts): Counts {
      Counts(preserve + other.preserve, pseudonymize + other.pseudonymize, redact + other.redact, shift + other.shift)
    }
  }

  const ZERO := Counts(0, 0, 0, 0)

  /** A stored node or relationship. A relationship may have no kind. */
  datatype Row =
    | NodeRow(id: nat, kinds: seq<Kind>, props: Props)
    | EdgeRow(id: nat, start: nat, end: nat, kind: Option<Kind>, props: Props)

  /** A fragment record. A relationship's own ID is not written. */
  datatype Item =
    | NodeItem(id: nat, kinds: seq<Kind>, props: Props)
    | EdgeItem(start: nat, end: nat, kind: Kind, props: Props)

  /** What the metrics builder is told about a record. */
  datatype Observation = SawNode(id: nat, kinds: seq<Kind>) | SawEdge(start: nat, end: nat, kind: Kind)

  datatype GraphSource = GraphSource(name: string, nodes: seq<Row>, edges: seq<Row>) {
    function Rows(phase: Phase): seq<Row> {
      if phase == Nodes then nodes else edges
    }
  }

  /** The longest line the reader of fragments takes. */
  const MAX_LINE: nat := 10 * 1024 * 1024

  /** The targets and the options. `sortKinds` orders a node's kinds; `scrub` rewrites properties and counts what it did;
      `line` is the length of a record's JSON line, if the sinks of a fragment can encode the record. */
  datatype Config = Config(
    sources: seq<GraphSource>,
    shardSize: nat,
    batchSize: nat,
    parquet: bool,
    sortKinds: seq<Kind> -> seq<Kind>,
    scrub: Props -> (Props, Counts),
    line: Item -> Option<nat>)

  ghost predicate Increasing(rows: seq<Row>) {
    forall i, j :: 0 <= i < j < |rows| ==> rows[i].id < rows[j].id
  }

  ghost predicate ValidSource(s: GraphSource) {
    && s.name != ""
    && Increasing(s.nodes) && Increasing(s.edges)
    && (forall i :: 0 <= i < |s.nodes| ==> s.nodes[i].NodeRow?)
    && (forall i :: 0 <= i < |s.edges| ==> s.edges[i].EdgeRow? && HasNode(s, s.edges[i].start) && HasNode(s, s.edges[i].end))
  }

  /** No graph has more nodes than its metrics can number. */
  ghost predicate WithinCapacity(c: Config) {
    forall g :: 0 <= g < |c.sources| ==> |c.sources[g].nodes| <= Metrics.MAX_ORDINALS
  }

  /** The first `n` rows can be encoded. */
  ghost predicate RowsEncode(c: Config, rows: seq<Row>, n: nat) {
    forall i :: 0 <= i < n && i < |rows| ==> c.line(ItemOf(c, rows[i])).Some?
  }

  ghost predicate Encodable(c: Config) {
    forall g :: 0 <= g < |c.sources| ==> RowsEncode(c, c.sources[g].nodes, |c.sources[g].nodes|) && RowsEncode(c, c.sources[g].edges, |c.sources[g].edges|)
  }

  /** The reader takes the line of a record. */
  predicate Short(c: Config, item: Item) {
    c.line(item).Some? ==> c.line(item).value <= MAX_LINE
  }

  predicate AllShort(c: Config, items: seq<Item>) {
    forall i :: 0 <= i < |items| ==> Short(c, items[i])
  }

  /** The reader takes the lines of the first `n` rows. */
  ghost predicate RowsFit(c: Config, rows: seq<Row>, n: nat) {
    forall i :: 0 <= i < n && i < |rows| ==> Short(c, ItemOf(c, rows[i]))
  }

  ghost predicate LinesFit(c: Config) {
    forall g :: 0 <= g < |c.sources| ==> RowsFit(c, c.sources[g].nodes, |c.sources[g].nodes|) && RowsFit(c, c.sources[g].edges, |c.sources[g].edges|)
  }

  /** Nothing in the source stands in the way of an uninterrupted dump. */
  ghost predicate Dumpable(c: Config) {
    WithinCapacity(c) && Encodable(c)
  }

  ghost predicate HasNode(s: GraphSource, id: nat) {
    exists i :: 0 <= i < |s.nodes| && s.nodes[i].id == id
  }

  ghost predicate ValidConfig(c: Config) {
    && 0 < c.shardSize && 0 < c.batchSize && 0 < |c.sources|
    && (forall g :: 0 <= g < |c.sources| ==> ValidSource(c.sources[g]))
    && (forall g, h :: 0 <= g < h < |c.sources| ==> c.sources[g].name != c.sources[h].name)
    && (forall ks, k :: k in c.sortKinds(ks) <==> k in ks)
  }

  function ItemOf(c: Config, row: Row): Item {
    match row
    case NodeRow(id, kinds, props) => NodeItem(id, c.sortKinds(kinds), c.scrub(props).0)
    case EdgeRow(_, start, end, kind, props) => EdgeItem(start, end, if kind.Some? then kind.value else "", c.scrub(props).0)
  }

  function CountsOf(c: Config, row: Row): Counts {
    c.scrub(row.props).1
  }

  function Observe(item: Item): Observation {
    match item
    case NodeItem(id, kinds, _) => SawNode(id, kinds)
    case EdgeItem(start, end, kind, _) => SawEdge(start, end, kind)
  }

  predicate SeenNode(observed: seq<Observation>, id: nat) {
    exists i :: 0 <= i < |observed| && observed[i].SawNode? && observed[i].id == id
  }

  function NodesSeen(observed: seq<Observation>): nat {
    if observed == [] then 0 else NodesSeen(observed[..|observed| - 1]) + if observed[|observed| - 1].SawNode? then 1 else 0
  }

  /** The metrics builder accepts a new node ID once, up to its capacity, and a relationship only between nodes it was told about. */
  predicate Observable(observed: seq<Observation>, next: Observation) {
    match next
    case SawNode(id, _) => !SeenNode(observed, id) && NodesSeen(observed) < Metrics.MAX_ORDINALS
    case SawEdge(start, end, _) => SeenNode(observed, start) && SeenNode(observed, end)
  }

  predicate AllObservable(observed: seq<Observation>) {
    forall i :: 0 <= i < |observed| ==> Observable(observed[..i], observed[i])
  }

  /** Kinds a scanned row adds to the schema. */
  function ScannedKinds(c: Config, row: Row): set<Kind> {
    match row
    case NodeRow(_, kinds, _) => set k | k in c.sortKinds(kinds) && k != ""
    case EdgeRow(_, _, _, kind, _) => if kind.Some? then {kind.value} else {}
  }

  /** Kinds a restored record adds to the schema. */
  function RestoredKinds(item: Item): set<Kind> {
    match item
    case NodeItem(_, kinds, _) => set k | k in kinds && k != ""
    case EdgeItem(_, _, kind, _) => if kind != "" then {kind} else {}
  }

  // ----- Folds over rows and records -----

  function ItemsOf(c: Config, rows: seq<Row>): seq<Item> {
    seq(|rows|, i requires 0 <= i < |rows| => ItemOf(c, rows[i]))
  }

  function ObserveAll(items: seq<Item>): seq<Observation> {
    seq(|items|, i requires 0 <= i < |items| => Observe(items[i]))
  }

  function CountAll(c: Config, rows: seq<Row>): Counts {
    if rows == [] then ZERO else CountAll(c, rows[..|rows| - 1]).Plus(CountsOf(c, rows[|rows| - 1]))
  }

  function KindsOfRows(c: Config, rows: seq<Row>): set<Kind> {
    set i, k | 0 <= i < |rows| && k in ScannedKinds(c, rows[i]) :: k
  }

  function KindsOfItems(items: seq<Item>): set<Kind> {
    set i, k | 0 <= i < |items| && k in RestoredKinds(items[i]) :: k
  }

  // ----- Files -----

  datatype Path =
    | CheckpointFile
    | ManifestFile
    | Fragment(graph: string, phase: Phase, shard: nat)
    | ParquetFragment(graph: string, phase: Phase, shard: nat)

  /** `Temp` is the path with ".tmp" appended. */
  datatype FileName = Final(path: Path) | Temp(path: Path)

  /** A manifest or checkpoint entry for one fragment. The digest stands for byte count and checksum. */
  datatype FileEntry = FileEntry(phase: Phase, path: Path, count: nat, digest: seq<Item>, counts: Counts)

  datatype GraphManifest = GraphManifest(name: string, nodeCount: nat, edgeCount: nat, nodeCounts: Counts, edgeCounts: Counts, files: seq<FileEntry>)

  datatype GraphSchema = GraphSchema(name: string, nodeKinds: set<Kind>, edgeKinds: set<Kind>)

  /** The metrics entry stands for the observations it is computed from. */
  datatype GraphMetrics = GraphMetrics(name: string, observed: seq<Observation>)

  datatype Manifest = Manifest(
    graphCount: nat,
    graphs: seq<GraphManifest>,
    schemas: seq<GraphSchema>,
    metrics: seq<GraphMetrics>,
    nodeTotals: Counts,
    edgeTotals: Counts)

  datatype Snapshot = Snapshot(nodeCount: nat, edgeCount: nat)

  datatype Current = Current(index: nat, name: string, snapshot: Option<Snapshot>, phase: Phase, last: Option<nat>, files: seq<FileEntry>)

  datatype Identity = Identity(graphs: seq<string>, parquet: bool, shardSize: nat, batchSize: nat)

  datatype Checkpoint = Checkpoint(identity: Identity, manifest: Manifest, current: Option<Current>)

  datatype Content =
    | Partial
    | CheckpointContent(checkpoint: Checkpoint)
    | ManifestContent(manifest: Manifest)
    | JsonLines(items: seq<Item>)
    | ParquetRows(items: seq<Item>)

  type Disk = map<FileName, Content>

  function IdentityOf(c: Config): Identity {
    Identity(seq(|c.sources|, g requires 0 <= g < |c.sources| => c.sources[g].name), c.parquet, c.shardSize, c.batchSize)
  }

  function SnapshotOf(s: GraphSource): Snapshot {
    Snapshot(|s.nodes|, |s.edges|)
  }

  /** Files of one phase, in order. */
  function PhaseFiles(files: seq<FileEntry>, phase: Phase): seq<FileEntry> {
    if files == [] then []
    else
      var rest := PhaseFiles(files[..|files| - 1], phase);
      var last := files[|files| - 1];
      if last.phase == phase then rest + [last] else rest
  }

  function FileTotal(files: seq<FileEntry>): nat {
    if files == [] then 0 else FileTotal(files[..|files| - 1]) + files[|files| - 1].count
  }

  function FileCounts(files: seq<FileEntry>): Counts {
    if files == [] then ZERO else FileCounts(files[..|files| - 1]).Plus(files[|files| - 1].counts)
  }

  // ----- The shards a source must become -----

  /** Where the first `j` shards of `n` rows end. */
  function Cut(n: nat, size: nat, j: nat): nat {
    if j == 0 then 0
    else
      var end := Cut(n, size, j - 1) + size;
      if end < n then end else n
  }

  /** The number of shards `n` rows make. */
  function ShardCount(n: nat, size: nat): nat
    requires 0 < size
  {
    if n == 0 then 0 else if n <= size then 1 else 1 + ShardCount(n - size, size)
  }

  function ShardRows(rows: seq<Row>, size: nat, j: nat): seq<Row> {
    CutMonotone(|rows|, size, j);
    rows[Cut(|rows|, size, j)..Cut(|rows|, size, j + 1)]
  }

  function ShardEntry(c: Config, name: string, phase: Phase, rows: seq<Row>, j: nat): FileEntry {
    var shard := ShardRows(rows, c.shardSize, j);
    FileEntry(phase, Fragment(name, phase, j + 1), |shard|, ItemsOf(c, shard), CountAll(c, shard))
  }

  /** The entries of the first `j` shards. */
  function ShardEntries(c: Config, name: string, phase: Phase, rows: seq<Row>, j: nat): seq<FileEntry> {
    seq(j, i requires 0 <= i < j => ShardEntry(c, name, phase, rows, i))
  }

  lemma CutMonotone(n: nat, size: nat, j: nat)
    ensures Cut(n, size, j) <= Cut(n, size, j + 1) <= n
  {
  }

  function NodeShards(c: Config, s: GraphSource): nat
    requires 0 < c.shardSize
  {
    ShardCount(|s.nodes|, c.shardSize)
  }

  function EdgeShards(c: Config, s: GraphSource): nat
    requires 0 < c.shardSize
  {
    ShardCount(|s.edges|, c.shardSize)
  }

  function AllFiles(c: Config, s: GraphSource): seq<FileEntry>
    requires 0 < c.shardSize
  {
    ShardEntries(c, s.name, Nodes, s.nodes, NodeShards(c, s)) + ShardEntries(c, s.name, Edges, s.edges, EdgeShards(c, s))
  }

  function ExpectedGraph(c: Config, s: GraphSource): GraphManifest
    requires 0 < c.shardSize
  {
    GraphManifest(s.name, |s.nodes|, |s.edges|, CountAll(c, s.nodes), CountAll(c, s.edges), AllFiles(c, s))
  }

  function ExpectedSchema(c: Config, s: GraphSource): GraphSchema {
    GraphSchema(s.name, KindsOfRows(c, s.nodes), KindsOfRows(c, s.edges))
  }

  function ExpectedMetrics(c: Config, s: GraphSource): GraphMetrics {
    GraphMetrics(s.name, ObserveAll(ItemsOf(c, s.nodes)) + ObserveAll(ItemsOf(c, s.edges)))
  }

  function Totals(c: Config, phase: Phase, k: nat): Counts
    requires k <= |c.sources|
  {
    if k == 0 then ZERO else Totals(c, phase, k - 1).Plus(CountAll(c, c.sources[k - 1].Rows(phase)))
  }

  /** The manifest of an uninterrupted dump. */
  function ExpectedManifest(c: Config): Manifest
    requires 0 < c.shardSize
  {
    var n := |c.sources|;
    Manifest(n,
             seq(n, g requires 0 <= g < n => ExpectedGraph(c, c.sources[g])),
             seq(n, g requires 0 <= g < n => ExpectedSchema(c, c.sources[g])),
             seq(n, g requires 0 <= g < n => ExpectedMetrics(c, c.sources[g])),
             Totals(c, Nodes, n), Totals(c, Edges, n))
  }
}
