/** The dump as a machine over a disk that survives crashes and a process that does not. */
module DumpProtocol {
  import opened Optional
  import opened DumpModel

  /** Why a process failed: a check found the directory or the source other than it should be, the metrics had no room for
      a node, a record could not be encoded, or a committed record could not be read back. */
  datatype Failure = Inconsistent | TooManyNodes | Unencodable | LineTooLong

  /** Where the process is. `Persist` replaces the durable checkpoint by the one in memory, then goes on at `next`. */
  datatype Pc =
    | Cleaning(paths: seq<FileName>)
    | CheckFiles
    | GraphStart
    | CountEntities
    | Restore
    | EnterPhase
    | Scan
    | OpenParquet
    | CloseJsonl
    | CloseParquet
    | PublishJsonl
    | PublishParquet
    | Commit
    | PhaseEnd
    | GraphEnd
    | Persist(stage: nat, next: Pc)
    | WriteManifest(stage: nat)
    | RemoveCheckpoint
    | Done
    | Failed(cause: Failure)

  /** Everything a crash loses. `open` holds the records of the fragment being written. */
  datatype Process = Process(
    pc: Pc,
    ck: Checkpoint,
    nodeKinds: set<Kind>,
    edgeKinds: set<Kind>,
    observed: seq<Observation>,
    nodeCounts: Counts,
    edgeCounts: Counts,
    lastID: Option<nat>,
    processed: nat,
    batch: seq<Row>,
    requested: nat,
    accepted: nat,
    open: Option<seq<Item>>,
    shardCounts: Counts,
    lastWritten: Option<nat>)

  datatype World = World(disk: Disk, proc: Option<Process>)

  function FirstCheckpoint(c: Config): Checkpoint {
    Checkpoint(IdentityOf(c), Manifest(|c.sources|, [], [], [], ZERO, ZERO), None)
  }

  function Boot(pc: Pc, ck: Checkpoint): Process {
    Process(pc, ck, {}, {}, [], ZERO, ZERO, None, 0, [], 0, 0, None, ZERO, None)
  }

  // ----- Reading the source -----

  predicate IsAfter(after: Option<nat>, row: Row) {
    after.None? || row.id > after.value
  }

  /** The rows a keyset query returns: ordered by ID, strictly after the cursor, at most `limit`. */
  function Query(rows: seq<Row>, after: Option<nat>, limit: nat): seq<Row> {
    if rows == [] || limit == 0 then []
    else if IsAfter(after, rows[0]) then [rows[0]] + Query(rows[1..], after, limit - 1)
    else Query(rows[1..], after, limit)
  }

  // ----- Paths -----

  /** The shard the checkpoint's current phase would commit next. */
  function NextShard(cur: Current): nat {
    |PhaseFiles(cur.files, cur.phase)| + 1
  }

  function NextJsonl(cur: Current): Path {
    Fragment(cur.name, cur.phase, NextShard(cur))
  }

  function NextParquet(cur: Current): Path {
    ParquetFragment(cur.name, cur.phase, NextShard(cur))
  }

  function ParquetOf(path: Path): Path {
    if path.Fragment? then ParquetFragment(path.graph, path.phase, path.shard) else path
  }

  // ----- Accepting a checkpoint -----

  /** What a resume removes before it looks at the files. */
  function KnownTemps(ck: Checkpoint): seq<FileName> {
    [Temp(CheckpointFile), Temp(ManifestFile)]
    + match ck.current
      case None => []
      case Some(cur) =>
        [Final(NextJsonl(cur)), Temp(NextJsonl(cur))]
        + if ck.identity.parquet then [Final(NextParquet(cur)), Temp(NextParquet(cur))] else []
  }

  /** Every fragment the checkpoint lists, completed graphs first. */
  function ListedFiles(ck: Checkpoint): seq<FileEntry> {
    GraphFiles(ck.manifest.graphs) + if ck.current.Some? then ck.current.value.files else []
  }

  function GraphFiles(graphs: seq<GraphManifest>): seq<FileEntry> {
    if graphs == [] then [] else GraphFiles(graphs[..|graphs| - 1]) + graphs[|graphs| - 1].files
  }

  predicate DistinctPaths(files: seq<FileEntry>) {
    forall i, j :: 0 <= i < j < |files| ==> files[i].path != files[j].path
  }

  /** Node fragments come before relationship fragments. */
  predicate NodesFirst(files: seq<FileEntry>) {
    forall i, j :: 0 <= i < j < |files| && files[i].phase == Edges ==> files[j].phase == Edges
  }

  /** Each phase's fragments carry the shard numbers 1, 2, 3 and so on. */
  predicate Numbered(name: string, files: seq<FileEntry>) {
    forall i :: 0 <= i < |files| ==> files[i].path == Fragment(name, files[i].phase, |PhaseFiles(files[..i + 1], files[i].phase)|)
  }

  function PhaseTotal(files: seq<FileEntry>, phase: Phase): nat {
    FileTotal(PhaseFiles(files, phase))
  }

  /** The metrics entry belongs to the graph entry and has its node and edge counts. */
  predicate MetricsMatch(m: GraphMetrics, g: GraphManifest) {
    m.name == g.name && NodesSeen(m.observed) == g.nodeCount && |m.observed| - NodesSeen(m.observed) == g.edgeCount
  }

  /** Every graph has a name, and its files come in order and add up to its counts. */
  predicate GraphsAccepted(graphs: seq<GraphManifest>) {
    forall g :: 0 <= g < |graphs| ==>
                  && graphs[g].name != ""
                  && NodesFirst(graphs[g].files)
                  && PhaseTotal(graphs[g].files, Nodes) == graphs[g].nodeCount
                  && PhaseTotal(graphs[g].files, Edges) == graphs[g].edgeCount
  }

  predicate DistinctGraphs(graphs: seq<GraphManifest>) {
    forall g, h :: 0 <= g < h < |graphs| ==> graphs[g].name != graphs[h].name
  }

  /** One metrics entry for every graph, each matching a graph. */
  predicate MetricsAccepted(metrics: seq<GraphMetrics>, graphs: seq<GraphManifest>) {
    && |metrics| == |graphs|
    && (forall i, j :: 0 <= i < j < |metrics| ==> metrics[i].name != metrics[j].name)
    && (forall i :: 0 <= i < |metrics| ==> MatchesSome(metrics[i], graphs))
  }

  predicate MatchesSome(m: GraphMetrics, graphs: seq<GraphManifest>) {
    exists g :: 0 <= g < |graphs| && MetricsMatch(m, graphs[g])
  }

  /** `Manifest.validate`. */
  predicate ManifestAccepted(m: Manifest) {
    m.graphCount == |m.graphs| && GraphsAccepted(m.graphs) && DistinctGraphs(m.graphs) && MetricsAccepted(m.metrics, m.graphs)
  }

  predicate FragmentPathsAccepted(name: string, files: seq<FileEntry>) {
    Numbered(name, files) && DistinctPaths(files)
  }

  /** The part of `validateDumpCheckpoint` about the graph in progress. */
  predicate CurrentAccepted(ck: Checkpoint, cur: Current, targetCount: nat) {
    && cur.index == |ck.manifest.graphs| && cur.index < targetCount
    && cur.index < |ck.identity.graphs| && cur.name == ck.identity.graphs[cur.index]
    && cur.snapshot.Some?
    && (forall i :: 0 <= i < |cur.files| ==> cur.files[i].count > 0)
    && NodesFirst(cur.files)
    && PhaseTotal(cur.files, Nodes) <= cur.snapshot.value.nodeCount
    && PhaseTotal(cur.files, Edges) <= cur.snapshot.value.edgeCount
    && (cur.phase == Edges ==> PhaseTotal(cur.files, Nodes) == cur.snapshot.value.nodeCount)
    && (PhaseTotal(cur.files, cur.phase) > 0 <==> cur.last.Some?)
    && FragmentPathsAccepted(cur.name, cur.files)
  }

  /** The completed graphs are the first targets, and their fragments have the paths they were committed under. */
  predicate TargetsAccepted(graphs: seq<GraphManifest>, names: seq<string>) {
    forall g :: 0 <= g < |graphs| ==> g < |names| && graphs[g].name == names[g] && FragmentPathsAccepted(graphs[g].name, graphs[g].files)
  }

  /** `validateDumpCheckpoint`. */
  predicate CheckpointAccepted(ck: Checkpoint, targetCount: nat) {
    && ck.manifest.graphCount == targetCount
    && |ck.manifest.graphs| <= targetCount
    && |ck.manifest.metrics| == |ck.manifest.graphs| && |ck.manifest.schemas| == |ck.manifest.graphs|
    && ManifestAccepted(ck.manifest.(graphCount := |ck.manifest.graphs|))
    && TargetsAccepted(ck.manifest.graphs, ck.identity.graphs)
    && (ck.current.Some? ==> CurrentAccepted(ck, ck.current.value, targetCount))
  }

  /** A listed fragment is on disk with its checksum, and so is its Parquet twin when there is one. */
  predicate FilePresent(disk: Disk, parquet: bool, e: FileEntry) {
    && Final(e.path) in disk && disk[Final(e.path)] == JsonLines(e.digest)
    && (parquet ==> Final(ParquetOf(e.path)) in disk)
  }

  predicate FileListed(parquet: bool, files: seq<FileEntry>, f: FileName) {
    exists i :: 0 <= i < |files| && (f == Final(files[i].path) || (parquet && f == Final(ParquetOf(files[i].path))))
  }

  /** `validateDumpCheckpointFiles`. */
  predicate FilesAccepted(disk: Disk, ck: Checkpoint) {
    && DistinctPaths(ListedFiles(ck))
    && (forall i :: 0 <= i < |ListedFiles(ck)| ==> FilePresent(disk, ck.identity.parquet, ListedFiles(ck)[i]))
    && (forall f :: f in disk ==> f == Final(CheckpointFile) || FileListed(ck.identity.parquet, ListedFiles(ck), f))
  }

  // ----- Restoring a graph from its committed fragments -----

  function Records(files: seq<FileEntry>): seq<Item> {
    if files == [] then [] else Records(files[..|files| - 1]) + files[|files| - 1].digest
  }

  /** Reading the listed fragments back gives records with the listed counts, in an order the metrics accept. */
  predicate Restorable(disk: Disk, cur: Current) {
    && (forall i :: 0 <= i < |cur.files| ==>
                      && Final(cur.files[i].path) in disk && disk[Final(cur.files[i].path)] == JsonLines(cur.files[i].digest)
                      && |cur.files[i].digest| == cur.files[i].count
                      && (forall k :: 0 <= k < |cur.files[i].digest| ==> (cur.files[i].digest[k].NodeItem? <==> cur.files[i].phase == Nodes)))
    && AllObservable(ObserveAll(Records(cur.files)))
    && (cur.phase == Nodes && cur.last.Some? ==>
          var items := Records(cur.files);
          items != [] && items[|items| - 1].NodeItem? && items[|items| - 1].id == cur.last.value)
  }

  // ----- The steps of a running process -----

  function Fail(w: World, p: Process, cause: Failure): World {
    w.(proc := Some(p.(pc := Failed(cause))))
  }

  function Go(w: World, p: Process): World {
    w.(proc := Some(p))
  }

  /** The source of the graph in progress. */
  function SourceOf(c: Config, p: Process): GraphSource {
    if p.ck.current.Some? && p.ck.current.value.index < |c.sources| then c.sources[p.ck.current.value.index] else GraphSource("", [], [])
  }

  function CurrentRows(c: Config, p: Process): seq<Row> {
    if p.ck.current.Some? then SourceOf(c, p).Rows(p.ck.current.value.phase) else []
  }

  function StepCleaning(w: World, p: Process): World
    requires p.pc.Cleaning?
  {
    if p.pc.paths == [] then Go(w, p.(pc := CheckFiles))
    else World(w.disk - {p.pc.paths[0]}, Some(p.(pc := Cleaning(p.pc.paths[1..]))))
  }

  /** `validateDumpCheckpointFiles`, then `validateCompletedDumpSources`. */
  function StepCheckFiles(c: Config, w: World, p: Process): World {
    if FilesAccepted(w.disk, p.ck) && |p.ck.manifest.graphs| <= |c.sources|
       && (forall g :: 0 <= g < |p.ck.manifest.graphs| ==>
                         SnapshotOf(c.sources[g]) == Snapshot(p.ck.manifest.graphs[g].nodeCount, p.ck.manifest.graphs[g].edgeCount))
    then Go(w, p.(pc := GraphStart))
    else Fail(w, p, Inconsistent)
  }

  function StepGraphStart(c: Config, w: World, p: Process): World {
    var g := |p.ck.manifest.graphs|;
    if g >= |c.sources| then Go(w, p.(pc := WriteManifest(0)))
    else if p.ck.current.Some? then Go(w, p.(pc := CountEntities))
    else Go(w, p.(pc := CountEntities, ck := p.ck.(current := Some(Current(g, c.sources[g].name, None, Nodes, None, [])))))
  }

  function StepCountEntities(c: Config, w: World, p: Process): World
    requires p.ck.current.Some?
  {
    var cur, now := p.ck.current.value, SnapshotOf(SourceOf(c, p));
    if cur.snapshot.Some? then
      if cur.snapshot.value == now then Go(w, p.(pc := Restore)) else Fail(w, p, Inconsistent)
    else Go(w, p.(pc := Persist(0, Restore), ck := p.ck.(current := Some(cur.(snapshot := Some(now))))))
  }

  /** `restoreDumpGraphFragments`. The reader refuses a line the writer took. */
  function StepRestore(c: Config, w: World, p: Process): World
    requires p.ck.current.Some?
  {
    var cur := p.ck.current.value;
    if !AllShort(c, Records(cur.files)) then Fail(w, p, LineTooLong)
    else if Restorable(w.disk, cur) then
      Go(w, p.(pc := EnterPhase,
               observed := ObserveAll(Records(cur.files)),
               nodeKinds := KindsOfItems(Records(PhaseFiles(cur.files, Nodes))),
               edgeKinds := KindsOfItems(Records(PhaseFiles(cur.files, Edges))),
               nodeCounts := FileCounts(PhaseFiles(cur.files, Nodes)),
               edgeCounts := FileCounts(PhaseFiles(cur.files, Edges))))
    else Fail(w, p, Inconsistent)
  }

  /** The beginning of `dumpNodePhase` or `dumpEdgePhase`. */
  function StepEnterPhase(c: Config, w: World, p: Process): World
    requires p.ck.current.Some?
  {
    var cur := p.ck.current.value;
    var processed := PhaseTotal(cur.files, cur.phase);
    if |CurrentRows(c, p)| == 0 then Go(w, p.(pc := PhaseEnd))
    else if processed > |CurrentRows(c, p)| || (processed > 0 && cur.last.None?) then Fail(w, p, Inconsistent)
    else
      Go(w, p.(pc := Scan, lastID := cur.last, processed := processed,
               batch := [], requested := 0, accepted := 0, open := None, shardCounts := ZERO, lastWritten := None))
  }

  /** One visit of `scanEntityBatches`: fetch a batch, open a fragment, or write the next record. */
  function StepScan(c: Config, w: World, p: Process): World
    requires p.ck.current.Some?
  {
    var cur, total := p.ck.current.value, |CurrentRows(c, p)|;
    if p.batch == [] && p.accepted < p.requested && p.processed < total then Fail(w, p, Inconsistent)
    else if p.batch == [] && p.processed >= total then
      Go(w, p.(pc := if p.open.Some? then CloseJsonl else PhaseEnd))
    else if p.batch == [] then
      var requested := if total - p.processed < c.batchSize then total - p.processed else c.batchSize;
      var batch := Query(CurrentRows(c, p), p.lastID, requested);
      if batch == [] then Fail(w, p, Inconsistent) else Go(w, p.(batch := batch, requested := requested, accepted := 0))
    else if !IsAfter(p.lastID, p.batch[0]) then Fail(w, p, Inconsistent)
    else if p.open.None? then
      World(w.disk[Temp(NextJsonl(cur)) := Partial],
            Some(p.(open := Some([]), pc := if c.parquet then OpenParquet else Scan)))
    else WriteRow(c, w, p)
  }

  /** The handler of one row, up to the flush of a full fragment. */
  function WriteRow(c: Config, w: World, p: Process): World
    requires p.ck.current.Some? && p.batch != [] && p.open.Some?
  {
    var row := p.batch[0];
    var item, counts := ItemOf(c, row), CountsOf(c, row);
    if !Observable(p.observed, Observe(item)) then Fail(w, p, if item.NodeItem? && !SeenNode(p.observed, item.id) then TooManyNodes else Inconsistent)
    else if c.line(item).None? then Fail(w, p, Unencodable)
    else
      var written := p.open.value + [item];
      var nodes := p.ck.current.value.phase == Nodes;
      Go(w, p.(pc := if |written| >= c.shardSize then CloseJsonl else Scan,
               open := Some(written),
               observed := p.observed + [Observe(item)],
               nodeKinds := if nodes then p.nodeKinds + ScannedKinds(c, row) else p.nodeKinds,
               edgeKinds := if nodes then p.edgeKinds else p.edgeKinds + ScannedKinds(c, row),
               nodeCounts := if nodes then p.nodeCounts.Plus(counts) else p.nodeCounts,
               edgeCounts := if nodes then p.edgeCounts else p.edgeCounts.Plus(counts),
               shardCounts := p.shardCounts.Plus(counts),
               lastWritten := Some(row.id), lastID := Some(row.id),
               processed := p.processed + 1, accepted := p.accepted + 1, batch := p.batch[1..]))
  }

  /** The Parquet staging file is created, and must not be there. */
  function StepOpenParquet(w: World, p: Process): World
    requires p.ck.current.Some?
  {
    var f := Temp(NextParquet(p.ck.current.value));
    if f in w.disk then Fail(w, p, Inconsistent) else World(w.disk[f := Partial], Some(p.(pc := Scan)))
  }

  function Rename(disk: Disk, path: Path): Disk
    requires Temp(path) in disk
  {
    (disk - {Temp(path)})[Final(path) := disk[Temp(path)]]
  }

  /** The fragment is published; the commit records it in memory and persists the checkpoint. */
  function StepCommit(w: World, p: Process): World
    requires p.ck.current.Some? && p.open.Some?
  {
    var cur, items := p.ck.current.value, p.open.value;
    if p.lastWritten.None? then Fail(w, p, Inconsistent)
    else
      var entry := FileEntry(cur.phase, NextJsonl(cur), |items|, items, p.shardCounts);
      Go(w, p.(pc := Persist(0, Scan),
               ck := p.ck.(current := Some(cur.(files := cur.files + [entry], last := p.lastWritten))),
               open := None, shardCounts := ZERO))
  }

  function StepPhaseEnd(w: World, p: Process): World
    requires p.ck.current.Some?
  {
    var cur := p.ck.current.value;
    if cur.phase == Nodes
    then Go(w, p.(pc := Persist(0, EnterPhase), ck := p.ck.(current := Some(cur.(phase := Edges, last := None)))))
    else Go(w, p.(pc := GraphEnd))
  }

  /** The end of `dumpGraph` and the bookkeeping of `Dump`. */
  function StepGraphEnd(c: Config, w: World, p: Process): World
    requires p.ck.current.Some?
  {
    var cur, src, m := p.ck.current.value, SourceOf(c, p), p.ck.manifest;
    if PhaseTotal(cur.files, Nodes) != |src.nodes| || PhaseTotal(cur.files, Edges) != |src.edges| then Fail(w, p, Inconsistent)
    else
      var graph := GraphManifest(cur.name, |src.nodes|, |src.edges|, p.nodeCounts, p.edgeCounts, cur.files);
      Go(w, p.(pc := Persist(0, GraphStart),
               ck := p.ck.(current := None,
                           manifest := m.(graphs := m.graphs + [graph],
                                          schemas := m.schemas + [GraphSchema(cur.name, p.nodeKinds, p.edgeKinds)],
                                          metrics := m.metrics + [GraphMetrics(cur.name, p.observed)],
                                          nodeTotals := m.nodeTotals.Plus(p.nodeCounts),
                                          edgeTotals := m.edgeTotals.Plus(p.edgeCounts)))))
  }

  /** `writeDumpCheckpoint`: the temporary file is begun, completed, and renamed. */
  function StepPersist(w: World, p: Process): World
    requires p.pc.Persist?
  {
    if p.pc.stage == 0 then World(w.disk[Temp(CheckpointFile) := Partial], Some(p.(pc := Persist(1, p.pc.next))))
    else if p.pc.stage == 1 then World(w.disk[Temp(CheckpointFile) := CheckpointContent(p.ck)], Some(p.(pc := Persist(2, p.pc.next))))
    else if Temp(CheckpointFile) in w.disk then World(Rename(w.disk, CheckpointFile), Some(p.(pc := p.pc.next)))
    else Fail(w, p, Inconsistent)
  }

  /** `writeManifest`. */
  function StepWriteManifest(w: World, p: Process): World
    requires p.pc.WriteManifest?
  {
    if p.pc.stage == 0 then
      if ManifestAccepted(p.ck.manifest) then World(w.disk[Temp(ManifestFile) := Partial], Some(p.(pc := WriteManifest(1)))) else Fail(w, p, Inconsistent)
    else if p.pc.stage == 1 then World(w.disk[Temp(ManifestFile) := ManifestContent(p.ck.manifest)], Some(p.(pc := WriteManifest(2))))
    else if Temp(ManifestFile) in w.disk then World(Rename(w.disk, ManifestFile), Some(p.(pc := RemoveCheckpoint)))
    else Fail(w, p, Inconsistent)
  }

  /** `fragmentWriter.Close`, one file effect at a time. */
  function StepPublish(c: Config, w: World, p: Process): World
    requires p.ck.current.Some? && p.open.Some?
  {
    var cur, items := p.ck.current.value, p.open.value;
    match p.pc
    case CloseJsonl => World(w.disk[Temp(NextJsonl(cur)) := JsonLines(items)], Some(p.(pc := if c.parquet then CloseParquet else PublishJsonl)))
    case CloseParquet => World(w.disk[Temp(NextParquet(cur)) := ParquetRows(items)], Some(p.(pc := PublishJsonl)))
    case PublishJsonl =>
      if Temp(NextJsonl(cur)) in w.disk
      then World(Rename(w.disk, NextJsonl(cur)), Some(p.(pc := if c.parquet then PublishParquet else Commit)))
      else Fail(w, p, Inconsistent)
    case PublishParquet =>
      if Temp(NextParquet(cur)) in w.disk then World(Rename(w.disk, NextParquet(cur)), Some(p.(pc := Commit))) else Fail(w, p, Inconsistent)
    case _ => Go(w, p)
  }

  predicate InGraph(pc: Pc) {
    pc.CountEntities? || pc.Restore? || pc.EnterPhase? || pc.Scan? || pc.OpenParquet? || pc.PhaseEnd? || pc.GraphEnd? || Publishing(pc)
  }

  predicate Publishing(pc: Pc) {
    pc.CloseJsonl? || pc.CloseParquet? || pc.PublishJsonl? || pc.PublishParquet? || pc.Commit?
  }

  /** The next step of a running process. */
  function Step(c: Config, w: World): World {
    if w.proc.None? then w
    else
      var p := w.proc.value;
      if InGraph(p.pc) && p.ck.current.None? then Fail(w, p, Inconsistent)
      else if Publishing(p.pc) && p.open.None? then Fail(w, p, Inconsistent)
      else
        match p.pc
        case Cleaning(_) => StepCleaning(w, p)
        case CheckFiles => StepCheckFiles(c, w, p)
        case GraphStart => StepGraphStart(c, w, p)
        case CountEntities => StepCountEntities(c, w, p)
        case Restore => StepRestore(c, w, p)
        case EnterPhase => StepEnterPhase(c, w, p)
        case Scan => StepScan(c, w, p)
        case OpenParquet => StepOpenParquet(w, p)
        case CloseJsonl => StepPublish(c, w, p)
        case CloseParquet => StepPublish(c, w, p)
        case PublishJsonl => StepPublish(c, w, p)
        case PublishParquet => StepPublish(c, w, p)
        case Commit => StepCommit(w, p)
        case PhaseEnd => StepPhaseEnd(w, p)
        case GraphEnd => StepGraphEnd(c, w, p)
        case Persist(_, _) => StepPersist(w, p)
        case WriteManifest(_) => StepWriteManifest(w, p)
        case RemoveCheckpoint => World(w.disk - {Final(CheckpointFile)}, Some(p.(pc := Done)))
        case Done => w
        case Failed(_) => w
  }

  // ----- Starting, crashing, resuming -----

  /** A fresh dump into a directory that holds neither checkpoint nor manifest. */
  predicate CanStart(w: World) {
    w.proc.None? && Final(CheckpointFile) !in w.disk && Final(ManifestFile) !in w.disk
  }

  function Start(c: Config, w: World): World {
    World(map[], Some(Boot(Persist(0, GraphStart), FirstCheckpoint(c))))
  }

  /** Files that are not committed: a process that ends in an error may remove some of them, a crash removes none. */
  predicate Uncommitted(disk: Disk, f: FileName) {
    || f == Temp(CheckpointFile)
    || (&& Final(CheckpointFile) in disk && disk[Final(CheckpointFile)].CheckpointContent?
        && f in KnownTemps(disk[Final(CheckpointFile)].checkpoint))
  }

  predicate CanCrash(w: World, removed: set<FileName>) {
    w.proc.Some? && forall f :: f in removed ==> Uncommitted(w.disk, f)
  }

  function Crash(w: World, removed: set<FileName>): World {
    World(w.disk - removed, None)
  }

  /** The checks `loadCompatibleDumpCheckpoint` makes before it removes anything. */
  predicate CanResume(c: Config, w: World) {
    && w.proc.None?
    && Final(ManifestFile) !in w.disk
    && Final(CheckpointFile) in w.disk && w.disk[Final(CheckpointFile)].CheckpointContent?
    && var ck := w.disk[Final(CheckpointFile)].checkpoint;
       ck.identity == IdentityOf(c) && CheckpointAccepted(ck, |c.sources|)
  }

  function Resume(w: World): World
    requires Final(CheckpointFile) in w.disk && w.disk[Final(CheckpointFile)].CheckpointContent?
  {
    var ck := w.disk[Final(CheckpointFile)].checkpoint;
    w.(proc := Some(Boot(Cleaning(KnownTemps(ck)), ck)))
  }

  /** One move of the whole system. */
  ghost predicate Next(c: Config, w: World, w': World) {
    || (w.proc.Some? && w' == Step(c, w))
    || (CanStart(w) && w' == Start(c, w))
    || (exists removed :: CanCrash(w, removed) && w' == Crash(w, removed))
    || (CanResume(c, w) && w' == Resume(w))
  }

  /** A run: it begins with an empty directory and nobody at work. */
  ghost predicate Run(c: Config, worlds: seq<World>) {
    && worlds != [] && worlds[0] == World(map[], None)
    && (forall i, j :: 0 <= i < |worlds| - 1 && j == i + 1 ==> Next(c, worlds[i], worlds[j]))
  }
}
