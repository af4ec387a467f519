/** What holds in every world a dump can reach. */
module DumpInvariant {
  import opened Optional
  import opened DumpModel
  import opened DumpProtocol
  import opened DumpShards
  import opened DumpSpots
  import opened DumpDisk

  // ----- The disk -----

  function JsonlAt(c: Config, spot: Spot): Path
    requires spot.Within? && spot.g < |c.sources|
  {
    Fragment(c.sources[spot.g].name, spot.phase, spot.j + 1)
  }

  function ParquetAt(c: Config, spot: Spot): Path
    requires spot.Within? && spot.g < |c.sources|
  {
    ParquetFragment(c.sources[spot.g].name, spot.phase, spot.j + 1)
  }

  /** Everything a crash may leave behind that is not committed. */
  function Temps(c: Config, spot: Spot): set<FileName>
    requires spot.Within? ==> spot.g < |c.sources|
  {
    {Temp(CheckpointFile), Temp(ManifestFile)}
    + if spot.Between? then {}
      else {Final(JsonlAt(c, spot)), Temp(JsonlAt(c, spot))}
           + if c.parquet then {Final(ParquetAt(c, spot)), Temp(ParquetAt(c, spot))} else {}
  }

  /** The durable checkpoint is the one of `spot`, its files are there, and every other file is in `junk`. */
  ghost predicate DiskAt(c: Config, disk: Disk, spot: Spot, schemas: seq<GraphSchema>, junk: set<FileName>)
    requires ValidSpot(c, spot)
  {
    && Final(CheckpointFile) in disk && disk[Final(CheckpointFile)] == CheckpointContent(CheckpointAt(c, spot, schemas))
    && junk <= Temps(c, spot)
    && Holds(c, disk, spot)
    && Only(c, disk, spot, {Final(CheckpointFile)} + junk)
  }

  ghost predicate Resumable(c: Config, disk: Disk, spot: Spot, schemas: seq<GraphSchema>) {
    ValidSpot(c, spot) && SchemasFit(c, schemas, spot.g) && DiskAt(c, disk, spot, schemas, Temps(c, spot))
  }

  /** The dump is finished: the manifest, its fragments, and at most the checkpoint that was about to be removed. */
  ghost predicate Complete(c: Config, disk: Disk, schemas: seq<GraphSchema>) {
    var n := |c.sources|;
    && ValidSpot(c, Between(n)) && SchemasFit(c, schemas, n)
    && Final(ManifestFile) in disk && disk[Final(ManifestFile)] == ManifestContent(ManifestAt(c, n, schemas))
    && (Final(CheckpointFile) in disk ==> disk[Final(CheckpointFile)] == CheckpointContent(CheckpointAt(c, Between(n), schemas)))
    && Holds(c, disk, Between(n))
    && Only(c, disk, Between(n), {Final(ManifestFile), Final(CheckpointFile)})
  }

  ghost predicate Untouched(disk: Disk) {
    disk.Keys <= {Temp(CheckpointFile)}
  }

  /** A disk a crash may leave. */
  ghost predicate Idle(c: Config, disk: Disk) {
    || Untouched(disk)
    || (exists spot, schemas :: Resumable(c, disk, spot, schemas))
    || (exists schemas :: Complete(c, disk, schemas))
  }

  // ----- The memory -----

  /** The in-memory checkpoint is the one of `spot`. */
  ghost predicate MemoryAt(c: Config, p: Process, spot: Spot, schemas: seq<GraphSchema>) {
    ValidSpot(c, spot) && SchemasFit(c, schemas, spot.g) && p.ck == CheckpointAt(c, spot, schemas)
  }

  /** What was gathered from the first `n` nodes and `e` relationships. */
  ghost predicate Gathered(c: Config, p: Process, s: GraphSource, n: nat, e: nat) {
    && n <= |s.nodes| && e <= |s.edges| && Taken(c, s, n, e)
    && p.observed == Seen(c, s, n, e)
    && p.nodeKinds == KindsOfRows(c, s.nodes[..n])
    && KindsRecorded(c, s, e, p.edgeKinds)
    && p.nodeCounts == CountAll(c, s.nodes[..n])
    && p.edgeCounts == CountAll(c, s.edges[..e])
  }

  ghost predicate GatheredTo(c: Config, p: Process, spot: Spot, pos: nat) {
    && spot.Within? && spot.g < |c.sources|
    && var s := c.sources[spot.g];
       if spot.phase == Nodes then Gathered(c, p, s, pos, 0) else Gathered(c, p, s, |s.nodes|, pos)
  }

  function RowsAt(c: Config, spot: Spot): seq<Row>
    requires spot.Within? && spot.g < |c.sources|
  {
    c.sources[spot.g].Rows(spot.phase)
  }

  function CutAt(c: Config, spot: Spot): (r: nat)
    requires spot.Within? && spot.g < |c.sources|
    ensures r <= |RowsAt(c, spot)|
  {
    CutBound(|RowsAt(c, spot)|, c.shardSize, spot.j);
    Cut(|RowsAt(c, spot)|, c.shardSize, spot.j)
  }

  /** The scan has handed out the rows before `processed` and fetched the rows of `batch`. */
  ghost predicate ScannedTo(p: Process, rows: seq<Row>) {
    && p.processed + |p.batch| <= |rows|
    && p.lastID == CursorAt(rows, p.processed)
    && p.batch == rows[p.processed..p.processed + |p.batch|]
    && p.accepted + |p.batch| == p.requested
  }

  /** The open fragment holds the rows after the last commit. */
  ghost predicate OpenTo(c: Config, p: Process, rows: seq<Row>, cut: nat) {
    && cut <= p.processed <= |rows|
    && (p.open.None? ==> p.processed == cut && p.shardCounts == ZERO)
    && (p.open.Some? ==>
          && p.open.value == ItemsOf(c, rows[cut..p.processed])
          && p.shardCounts == CountAll(c, rows[cut..p.processed])
          && (p.processed > cut ==> p.lastWritten == CursorAt(rows, p.processed)))
  }

  ghost predicate Scanning(c: Config, p: Process, spot: Spot) {
    && spot.Within? && spot.g < |c.sources|
    && GatheredTo(c, p, spot, p.processed)
    && ScannedTo(p, RowsAt(c, spot))
    && OpenTo(c, p, RowsAt(c, spot), CutAt(c, spot))
  }

  /** The open fragment is full, or it is the last one. */
  ghost predicate ReadyToPublish(c: Config, p: Process, spot: Spot) {
    && Scanning(c, p, spot)
    && p.open.Some? && p.processed > CutAt(c, spot)
    && p.processed == Cut(|RowsAt(c, spot)|, c.shardSize, spot.j + 1)
  }

  ghost predicate MayScan(c: Config, p: Process, spot: Spot) {
    && Scanning(c, p, spot)
    && (p.open.Some? ==> |p.open.value| < c.shardSize && (p.open.value == [] ==> p.batch != []))
  }

  ghost predicate PhaseDone(c: Config, p: Process, spot: Spot) {
    && spot.Within? && spot.g < |c.sources| && 0 < c.shardSize
    && spot.j == Shards(c, c.sources[spot.g], spot.phase)
    && GatheredTo(c, p, spot, |RowsAt(c, spot)|)
  }

  /** What the memory holds at a program point of the body of `dumpGraph`. */
  ghost predicate BodyAt(c: Config, p: Process, spot: Spot, pc: Pc) {
    match pc
    case CheckFiles => true
    case GraphStart => true
    case Restore => spot.Within?
    case EnterPhase => spot.Within? && spot.g < |c.sources| && GatheredTo(c, p, spot, CutAt(c, spot))
    case Scan => MayScan(c, p, spot)
    case OpenParquet => MayScan(c, p, spot) && p.open == Some([]) && c.parquet
    case CloseJsonl => ReadyToPublish(c, p, spot)
    case CloseParquet => ReadyToPublish(c, p, spot) && c.parquet
    case PublishJsonl => ReadyToPublish(c, p, spot)
    case PublishParquet => ReadyToPublish(c, p, spot) && c.parquet
    case Commit => ReadyToPublish(c, p, spot)
    case PhaseEnd => PhaseDone(c, p, spot)
    case GraphEnd => PhaseDone(c, p, spot) && spot.phase == Edges
    case _ => false
  }

  // ----- The files being written -----

  function StagingNames(c: Config, spot: Spot): set<FileName>
    requires spot.Within? && spot.g < |c.sources|
  {
    {Temp(JsonlAt(c, spot))} + if c.parquet then {Temp(ParquetAt(c, spot))} else {}
  }

  function OutputNames(c: Config, spot: Spot): set<FileName>
    requires spot.Within? && spot.g < |c.sources|
  {
    {Final(JsonlAt(c, spot))} + if c.parquet then {Final(ParquetAt(c, spot))} else {}
  }

  /** The uncommitted files that may be there. */
  function JunkAt(c: Config, p: Process, spot: Spot, pc: Pc): set<FileName>
    requires spot.Within? ==> spot.g < |c.sources|
  {
    if spot.Between? then {}
    else
      match pc
      case Scan => if p.open.Some? then StagingNames(c, spot) else {}
      case OpenParquet => {Temp(JsonlAt(c, spot))}
      case CloseJsonl => StagingNames(c, spot)
      case CloseParquet => StagingNames(c, spot)
      case PublishJsonl => StagingNames(c, spot)
      case PublishParquet => {Final(JsonlAt(c, spot)), Temp(ParquetAt(c, spot))}
      case Commit => OutputNames(c, spot)
      case _ => {}
  }

  predicate HasContent(disk: Disk, f: FileName, content: Content) {
    f in disk && disk[f] == content
  }

  /** The contents of the uncommitted files that a later step relies on. */
  ghost predicate StagedAt(c: Config, disk: Disk, p: Process, spot: Spot, pc: Pc)
    requires spot.Within? ==> spot.g < |c.sources|
  {
    (spot.Within? && p.open.Some?) ==>
      var jsonl, parquet := JsonLines(p.open.value), ParquetRows(p.open.value);
      match pc
      case CloseParquet => HasContent(disk, Temp(JsonlAt(c, spot)), jsonl)
      case PublishJsonl => HasContent(disk, Temp(JsonlAt(c, spot)), jsonl) && (c.parquet ==> HasContent(disk, Temp(ParquetAt(c, spot)), parquet))
      case PublishParquet => HasContent(disk, Final(JsonlAt(c, spot)), jsonl) && HasContent(disk, Temp(ParquetAt(c, spot)), parquet)
      case Commit => HasContent(disk, Final(JsonlAt(c, spot)), jsonl) && (c.parquet ==> HasContent(disk, Final(ParquetAt(c, spot)), parquet))
      case _ => true
  }

  // ----- Processes -----

  ghost predicate InBody(c: Config, disk: Disk, p: Process, spot: Spot, schemas: seq<GraphSchema>) {
    && MemoryAt(c, p, spot, schemas)
    && BodyAt(c, p, spot, p.pc)
    && DiskAt(c, disk, spot, schemas, JunkAt(c, p, spot, p.pc))
    && StagedAt(c, disk, p, spot, p.pc)
  }

  ghost predicate InCleaning(c: Config, disk: Disk, p: Process, spot: Spot, schemas: seq<GraphSchema>) {
    && p.pc.Cleaning?
    && MemoryAt(c, p, spot, schemas)
    && DiskAt(c, disk, spot, schemas, set f | f in p.pc.paths)
  }

  function FreshCurrent(c: Config, g: nat): Current
    requires g < |c.sources|
  {
    Current(g, c.sources[g].name, None, Nodes, None, [])
  }

  ghost predicate InCounting(c: Config, disk: Disk, p: Process, spot: Spot, schemas: seq<GraphSchema>) {
    && p.pc.CountEntities?
    && ValidSpot(c, spot) && spot.g < |c.sources| && SchemasFit(c, schemas, spot.g)
    && p.ck == (if spot.Within? then CheckpointAt(c, spot, schemas) else CheckpointAt(c, spot, schemas).(current := Some(FreshCurrent(c, spot.g))))
    && DiskAt(c, disk, spot, schemas, {})
  }

  /** Where the process goes on after persisting a checkpoint. */
  predicate AfterPersist(pc: Pc) {
    pc.GraphStart? || pc.Restore? || pc.EnterPhase? || pc.Scan?
  }

  /** The disk still has the checkpoint before; it already has the files of the one in memory. */
  ghost predicate InPersist(c: Config, disk: Disk, p: Process, spot: Spot, schemas: seq<GraphSchema>) {
    && p.pc.Persist? && p.pc.stage <= 2 && AfterPersist(p.pc.next)
    && MemoryAt(c, p, spot, schemas)
    && BodyAt(c, p, spot, p.pc.next)
    && JunkAt(c, p, spot, p.pc.next) == {}
    && Idle(c, disk)
    && Final(ManifestFile) !in disk
    && Holds(c, disk, spot)
    && Only(c, disk, spot, {Final(CheckpointFile), Temp(CheckpointFile)})
    && (p.pc.stage == 2 ==> HasContent(disk, Temp(CheckpointFile), CheckpointContent(p.ck)))
  }

  ghost predicate InManifest(c: Config, disk: Disk, p: Process, spot: Spot, schemas: seq<GraphSchema>) {
    && p.pc.WriteManifest? && p.pc.stage <= 2
    && MemoryAt(c, p, spot, schemas)
    && spot == Between(|c.sources|)
    && DiskAt(c, disk, spot, schemas, {Temp(ManifestFile)})
    && (p.pc.stage == 2 ==> HasContent(disk, Temp(ManifestFile), ManifestContent(p.ck.manifest)))
  }

  ghost predicate InEnd(c: Config, disk: Disk, p: Process, schemas: seq<GraphSchema>) {
    && (p.pc.RemoveCheckpoint? || p.pc.Done?)
    && MemoryAt(c, p, Between(|c.sources|), schemas)
    && Complete(c, disk, schemas)
    && (p.pc.Done? ==> Final(CheckpointFile) !in disk)
  }

  ghost predicate RunningAt(c: Config, disk: Disk, p: Process, spot: Spot, schemas: seq<GraphSchema>) {
    || InBody(c, disk, p, spot, schemas)
    || InCleaning(c, disk, p, spot, schemas)
    || InCounting(c, disk, p, spot, schemas)
    || InPersist(c, disk, p, spot, schemas)
    || InManifest(c, disk, p, spot, schemas)
    || InEnd(c, disk, p, schemas)
  }

  /** Only the source is to blame for a failure: a graph with too many nodes, a record that cannot be encoded, or one that cannot be
      read back. */
  ghost predicate Blames(c: Config, cause: Failure) {
    match cause
    case Inconsistent => false
    case TooManyNodes => !WithinCapacity(c)
    case Unencodable => !Encodable(c)
    case LineTooLong => !LinesFit(c)
  }

  ghost predicate Refused(c: Config, disk: Disk, p: Process) {
    p.pc.Failed? && Idle(c, disk) && Blames(c, p.pc.cause)
  }

  ghost predicate Good(c: Config, w: World) {
    match w.proc
    case None => Idle(c, w.disk)
    case Some(p) => (exists spot, schemas :: RunningAt(c, w.disk, p, spot, schemas)) || Refused(c, w.disk, p)
  }
}
