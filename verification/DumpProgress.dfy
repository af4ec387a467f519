/** A dump that is left alone finishes. */
module DumpProgress {
  import opened Optional
  import opened DumpModel
  import opened DumpProtocol
  import opened DumpShards
  import opened DumpSpots
  import opened DumpDisk
  import opened DumpInvariant
  import opened DumpDiskSteps
  import opened DumpSteps
  import opened DumpScanSteps
  import opened DumpCommitSteps
  import opened DumpRuns

  /** What is left to do, from the largest unit to the smallest. */
  datatype Work = Work(graphs: nat, stage: nat, shards: nat, point: nat, rows: nat, inner: nat)

  ghost predicate Less(a: Work, b: Work) {
    || a.graphs < b.graphs
    || (a.graphs == b.graphs && a.stage < b.stage)
    || (a.graphs == b.graphs && a.stage == b.stage && a.shards < b.shards)
    || (a.graphs == b.graphs && a.stage == b.stage && a.shards == b.shards && Closer(a, b))
  }

  ghost predicate Closer(a: Work, b: Work) {
    || a.point < b.point
    || (a.point == b.point && a.rows < b.rows)
    || (a.point == b.point && a.rows == b.rows && a.inner < b.inner)
  }

  function Minus(a: nat, b: nat): nat {
    if b <= a then a - b else 0
  }

  function StagesLeft(ck: Checkpoint): nat {
    if ck.current.None? || ck.current.value.snapshot.None? then 3 else if ck.current.value.phase == Nodes then 2 else 1
  }

  function ShardsLeft(c: Config, ck: Checkpoint): nat {
    if 0 < c.shardSize && ck.current.Some? && ck.current.value.snapshot.Some? && ck.current.value.index < |c.sources| then
      var cur := ck.current.value;
      Minus(ShardCount(|c.sources[cur.index].Rows(cur.phase)|, c.shardSize), |PhaseFiles(cur.files, cur.phase)|)
    else 0
  }

  function PointRank(pc: Pc): nat {
    match pc
    case Cleaning(_) => 12
    case CheckFiles => 11
    case GraphStart => 10
    case CountEntities => 9
    case WriteManifest(_) => 9
    case RemoveCheckpoint => 8
    case Restore => 7
    case Done => 7
    case EnterPhase => 5
    case Scan => 3
    case OpenParquet => 3
    case PhaseEnd => 1
    case GraphEnd => 0
    case Persist(_, next) => if next.GraphStart? then 11 else if next.Restore? then 8 else if next.EnterPhase? then 6 else 4
    case Failed(_) => 0
    case _ => 2
  }

  function RowsLeft(c: Config, p: Process): nat {
    if p.pc.Scan? || p.pc.OpenParquet? then Minus(|CurrentRows(c, p)|, p.processed) else 0
  }

  function InnerLeft(p: Process): nat {
    match p.pc
    case Cleaning(paths) => |paths|
    case Scan => if p.batch == [] then 3 else if p.open.None? then 2 else 0
    case OpenParquet => 1
    case CloseJsonl => 4
    case CloseParquet => 3
    case PublishJsonl => 2
    case PublishParquet => 1
    case Persist(stage, _) => Minus(3, stage)
    case WriteManifest(stage) => Minus(3, stage)
    case _ => 0
  }

  function WorkLeft(c: Config, p: Process): Work {
    Work(Minus(|c.sources|, |p.ck.manifest.graphs|), StagesLeft(p.ck), ShardsLeft(c, p.ck), PointRank(p.pc), RowsLeft(c, p), InnerLeft(p))
  }

  // ----- Every step reduces the work -----

  /** Facts of a good process that the program text alone does not give. */
  ghost predicate Bounded(c: Config, p: Process) {
    && (p.pc.Persist? ==> p.pc.stage <= 2 && AfterPersist(p.pc.next))
    && (p.pc.WriteManifest? ==> p.pc.stage <= 2)
    && (p.pc.Scan? && p.batch != [] ==> p.processed < |CurrentRows(c, p)|)
    && (p.pc.OpenParquet? ==> p.open.Some? && p.batch != [])
    && (p.pc.GraphEnd? || (p.pc.GraphStart? && p.ck.current.Some?) ==> |p.ck.manifest.graphs| < |c.sources|)
    && (p.pc.Commit? ==> ShardsLeft(c, p.ck) > 0)
    && (p.pc.Commit? ==> p.ck.current.Some? && p.ck.current.value.snapshot.Some? && NextJsonl(p.ck.current.value).Fragment?)
    && (InGraph(p.pc) && !p.pc.CountEntities? ==> p.ck.current.Some? && p.ck.current.value.snapshot.Some?)
  }

  lemma BodyBounded(c: Config, disk: Disk, p: Process, spot: Spot, schemas: seq<GraphSchema>)
    requires InBody(c, disk, p, spot, schemas)
    ensures Bounded(c, p)
  {
    hide DiskAt, StagedAt, ValidConfig, SchemasFit, CurrentAt, Gathered, ItemsOf, CountAll, IdentityOf, ExpectedGraph, ExpectedMetrics, Totals, PhaseFiles, NextParquet;
    ShardSizePositive(c);
    if InGraph(p.pc) {
      SameRows(c, p, spot, schemas);
      CurrentFields(c, spot);
      if p.pc.Commit? {
        NextNames(c, spot);
        CutFull(|RowsAt(c, spot)|, c.shardSize, spot.j);
      }
    }
  }

  lemma AllBounded(c: Config, w: World)
    requires Good(c, w) && w.proc.Some? && !w.proc.value.pc.Failed?
    ensures Bounded(c, w.proc.value)
  {
    hide InBody, MemoryAt, DiskAt, BodyAt, Complete, Idle, Holds, Only, SchemasFit, ValidSpot, PhaseFiles, CurrentRows, ShardsLeft;
    var p := w.proc.value;
    var spot, schemas :| RunningAt(c, w.disk, p, spot, schemas);
    if InBody(c, w.disk, p, spot, schemas) {
      BodyBounded(c, w.disk, p, spot, schemas);
    }
  }

  lemma CommitReduces(c: Config, ck: Checkpoint, ck': Checkpoint, entry: FileEntry, last: Option<nat>)
    requires ShardsLeft(c, ck) > 0 && ck.current.Some? && entry.phase == ck.current.value.phase
    requires ck' == ck.(current := Some(ck.current.value.(files := ck.current.value.files + [entry], last := last)))
    ensures ShardsLeft(c, ck') < ShardsLeft(c, ck)
  {
    var files := ck.current.value.files;
    assert (files + [entry])[..|files + [entry]| - 1] == files;
  }

  lemma NoShardsYet(c: Config, ck: Checkpoint)
    requires ck.current.None? || ck.current.value.snapshot.None?
    ensures ShardsLeft(c, ck) == 0
  {
  }

  /** The step succeeds from a process that is within its bounds. */
  ghost predicate Succeeds(c: Config, w: World) {
    && w.proc.Some? && Bounded(c, w.proc.value) && !w.proc.value.pc.Done? && !w.proc.value.pc.Failed?
    && Step(c, w).proc.Some? && !Step(c, w).proc.value.pc.Failed?
  }

  ghost predicate Reduces(c: Config, w: World) {
    Step(c, w).proc.Some? && w.proc.Some? && Less(WorkLeft(c, Step(c, w).proc.value), WorkLeft(c, w.proc.value))
  }

  lemma OutsideReduces(c: Config, w: World)
    requires Succeeds(c, w) && !InGraph(w.proc.value.pc)
    ensures Reduces(c, w)
  {
    hide ShardsLeft, FilesAccepted, Restorable, ManifestAccepted, PhaseTotal, Query, Observable, NextParquet, NextJsonl, NextShard, PhaseFiles, CountsOf, Counts.Plus, ScannedKinds, KindsOfItems, Records, ItemOf;
    var p, p' := w.proc.value, Step(c, w).proc.value;
    if p.pc.GraphStart? && p.ck.current.None? {
      NoShardsYet(c, p.ck);
      NoShardsYet(c, p'.ck) by { assert p'.ck.current.None? || p'.ck.current.value.snapshot.None?; }
    }
  }

  lemma ScanReduces(c: Config, w: World)
    requires Succeeds(c, w) && InGraph(w.proc.value.pc) && !Publishing(w.proc.value.pc)
    ensures Reduces(c, w)
  {
    hide ShardsLeft, FilesAccepted, Restorable, ManifestAccepted, PhaseTotal, Query, Observable, NextParquet, NextJsonl, NextShard, PhaseFiles, CountsOf, Counts.Plus, ScannedKinds, KindsOfItems, Records, ItemOf;
  }

  lemma PublishReduces(c: Config, w: World)
    requires Succeeds(c, w) && Publishing(w.proc.value.pc)
    ensures Reduces(c, w)
  {
    hide ShardsLeft, FilesAccepted, Restorable, ManifestAccepted, PhaseTotal, Query, Observable, NextParquet, NextJsonl, NextShard, PhaseFiles, CountsOf, Counts.Plus, ScannedKinds, KindsOfItems, Records, ItemOf;
    var p, p' := w.proc.value, Step(c, w).proc.value;
    if p.pc.Commit? {
      var cur, items := p.ck.current.value, p.open.value;
      CommitReduces(c, p.ck, p'.ck, FileEntry(cur.phase, NextJsonl(cur), |items|, items, p.shardCounts), p.lastWritten);
    }
  }

  lemma StepReduces(c: Config, w: World)
    requires Good(c, w) && w.proc.Some? && !w.proc.value.pc.Done? && !w.proc.value.pc.Failed?
    ensures Good(c, Step(c, w)) && Step(c, w).proc.Some?
    ensures Step(c, w).proc.value.pc.Failed? || Less(WorkLeft(c, Step(c, w).proc.value), WorkLeft(c, w.proc.value))
  {
    hide Good, Bounded, WorkLeft, Less;
    StepKeeps(c, w);
    AllBounded(c, w);
    StepGoesOn(c, w);
    if Step(c, w).proc.value.pc.Failed? {
    } else if !InGraph(w.proc.value.pc) {
      OutsideReduces(c, w);
    } else if !Publishing(w.proc.value.pc) {
      ScanReduces(c, w);
    } else {
      PublishReduces(c, w);
    }
  }

  lemma StepGoesOn(c: Config, w: World)
    requires w.proc.Some?
    ensures Step(c, w).proc.Some?
  {
    hide FilesAccepted, Restorable, ManifestAccepted, PhaseTotal, Query, Observable, NextParquet, NextJsonl, PhaseFiles, CountsOf, Counts.Plus, ScannedKinds, KindsOfItems, Records, ItemOf, ObserveAll, FileCounts, AllShort, CurrentRows, SourceOf, Rename, InGraph, Publishing;
  }

  // ----- Finishing -----

  function Iterate(c: Config, w: World, n: nat): World
    decreases n
  {
    if n == 0 then w else Iterate(c, Step(c, w), n - 1)
  }

  ghost predicate Over(w: World) {
    w.proc.Some? && (w.proc.value.pc.Done? || w.proc.value.pc.Failed?)
  }

  /** The process has yet to read back what is committed of the graph in progress. */
  predicate BeforeRestore(pc: Pc) {
    || pc.Cleaning? || pc.CheckFiles? || pc.GraphStart? || pc.CountEntities? || pc.Restore?
    || (pc.Persist? && (pc.next.GraphStart? || pc.next.Restore?))
  }

  /** What a process has yet to read back, it can. */
  ghost predicate Calm(c: Config, p: Process) {
    BeforeRestore(p.pc) && p.ck.current.Some? ==> AllShort(c, Records(p.ck.current.value.files))
  }

  lemma CalmOutside(c: Config, w: World)
    requires Succeeds(c, w) && Calm(c, w.proc.value) && !InGraph(w.proc.value.pc)
    ensures Calm(c, Step(c, w).proc.value)
  {
    hide ShardsLeft, FilesAccepted, ManifestAccepted, NextParquet, NextJsonl, NextShard, PhaseFiles, CurrentRows, Short;
  }

  lemma CalmInside(c: Config, w: World)
    requires Succeeds(c, w) && Calm(c, w.proc.value) && InGraph(w.proc.value.pc)
    ensures Calm(c, Step(c, w).proc.value)
  {
    hide ShardsLeft, Restorable, PhaseTotal, Query, Observable, NextParquet, NextJsonl, NextShard, PhaseFiles, CountsOf, Counts.Plus, ScannedKinds, KindsOfItems, ItemOf, CurrentRows, Records, AllShort;
  }

  lemma CalmKeeps(c: Config, w: World)
    requires Succeeds(c, w) && Calm(c, w.proc.value)
    ensures Calm(c, Step(c, w).proc.value)
  {
    hide Step, Bounded, Calm;
    if InGraph(w.proc.value.pc) {
      CalmInside(c, w);
    } else {
      CalmOutside(c, w);
    }
  }

  /** Only a restore finds a line too long. */
  lemma OnlyRestoreRefuses(c: Config, w: World)
    requires w.proc.Some? && !w.proc.value.pc.Failed? && Bounded(c, w.proc.value)
    requires Step(c, w).proc.Some? && Step(c, w).proc.value.pc == Failed(LineTooLong)
    ensures !Calm(c, w.proc.value)
  {
    hide FilesAccepted, Restorable, ManifestAccepted, PhaseTotal, Query, Observable, NextParquet, NextJsonl, NextShard, PhaseFiles, CountsOf, Counts.Plus, ScannedKinds, KindsOfItems, ItemOf, CurrentRows, Records, AllShort;
  }

  /** A calm process takes its next step, unless the source cannot be dumped at all. */
  lemma CalmGoesOn(c: Config, w: World)
    requires Dumpable(c) && Good(c, w) && w.proc.Some? && Calm(c, w.proc.value) && !Over(w)
    ensures Succeeds(c, w) && Good(c, Step(c, w)) && Calm(c, Step(c, w).proc.value)
  {
    hide Good, Bounded, Step, Calm, WithinCapacity, Encodable, LinesFit;
    StepKeeps(c, w);
    AllBounded(c, w);
    StepGoesOn(c, w);
    GoodEnds(c, Step(c, w));
    if Step(c, w).proc.value.pc.Failed? {
      OnlyRestoreRefuses(c, w);
    }
    CalmKeeps(c, w);
  }

  /** A process that is not calm never gets past its restore. */
  lemma DoomedFails(c: Config, w: World)
    requires w.proc.Some? && Bounded(c, w.proc.value) && !Calm(c, w.proc.value)
    ensures Step(c, w).proc.Some? && (Step(c, w).proc.value.pc.Failed? || !Calm(c, Step(c, w).proc.value))
  {
    hide ShardsLeft, FilesAccepted, Restorable, ManifestAccepted, PhaseTotal, NextParquet, NextJsonl, NextShard, PhaseFiles, Records, AllShort, CurrentRows;
  }

  lemma {:induction false} ComesToAnEnd(c: Config, w: World) returns (n: nat)
    requires Good(c, w) && w.proc.Some?
    ensures Good(c, Iterate(c, w, n)) && Over(Iterate(c, w, n))
    ensures Dumpable(c) && Calm(c, w.proc.value) && !w.proc.value.pc.Failed? ==> Iterate(c, w, n).proc.value.pc.Done?
    ensures !Calm(c, w.proc.value) ==> Iterate(c, w, n).proc.value.pc.Failed?
    decreases !Over(w), WorkOf(c, w).graphs, WorkOf(c, w).stage, WorkOf(c, w).shards, WorkOf(c, w).point, WorkOf(c, w).rows, WorkOf(c, w).inner
  {
    hide Good, Step, WorkLeft, Calm, Dumpable, Bounded, AllShort;
    if Over(w) {
      assert Calm(c, w.proc.value) by { OverIsCalm(c, w); }
      n := 0;
    } else {
      StepReduces(c, w);
      if !Calm(c, w.proc.value) {
        AllBounded(c, w);
        DoomedFails(c, w);
        if Step(c, w).proc.value.pc.Failed? {
          OverIsCalm(c, Step(c, w));
          assert Iterate(c, w, 1) == Iterate(c, Step(c, w), 0);
          return 1;
        }
      } else if Dumpable(c) {
        CalmGoesOn(c, w);
      }
      n := ComesToAnEnd(c, Step(c, w));
      n := n + 1;
    }
  }

  lemma OverIsCalm(c: Config, w: World)
    requires Over(w)
    ensures Calm(c, w.proc.value)
  {
  }

  /** From any good world with a process at work, enough uninterrupted steps end it: done if and only if the source can be dumped and
      what the process has yet to read back can be, failed if not. */
  lemma Finishes(c: Config, w: World) returns (n: nat)
    requires Good(c, w) && w.proc.Some? && !w.proc.value.pc.Failed?
    ensures var w' := Iterate(c, w, n);
            Good(c, w') && w'.proc.Some? && (if Dumpable(c) && Calm(c, w.proc.value) then w'.proc.value.pc.Done? else w'.proc.value.pc.Failed?)
  {
    hide Good, Step, Dumpable, Calm;
    n := ComesToAnEnd(c, w);
    GoodEnds(c, Iterate(c, w, n));
  }

  // ----- Where every record can be read back, every process is calm -----

  lemma MemoryCalm(c: Config, p: Process, spot: Spot, schemas: seq<GraphSchema>)
    requires MemoryAt(c, p, spot, schemas) && LinesFit(c)
    ensures Calm(c, p)
  {
    hide SchemasFit, ValidConfig, CurrentAt, ManifestAt, IdentityOf, Records, CommittedAt, AllShort, NodesAt, EdgesAt, TakenAt;
    if spot.Within? {
      ShardSizePositive(c);
      CurrentFields(c, spot);
      ReadsBackIff(c, spot);
      hide RowsFit;
      FitPrefix(c, c.sources[spot.g].nodes, NodesAt(c, spot));
      FitPrefix(c, c.sources[spot.g].edges, EdgesAt(c, spot));
    }
  }

  lemma FitPrefix(c: Config, rows: seq<Row>, n: nat)
    requires RowsFit(c, rows, |rows|)
    ensures RowsFit(c, rows, n)
  {
    hide Short;
  }

  lemma CountingCalm(c: Config, disk: Disk, p: Process, spot: Spot, schemas: seq<GraphSchema>)
    requires InCounting(c, disk, p, spot, schemas) && LinesFit(c)
    ensures Calm(c, p)
  {
    hide DiskAt, SchemasFit, ManifestAt, IdentityOf, Records, AllShort, LinesFit, CurrentAt, ValidConfig;
    if spot.Within? {
      MemoryCalm(c, p, spot, schemas);
    } else {
      assert AllShort(c, Records([])) by { NoRecords(c); }
    }
  }

  lemma NoRecords(c: Config)
    ensures AllShort(c, Records([]))
  {
  }

  lemma AllCalm(c: Config, w: World)
    requires Good(c, w) && w.proc.Some? && LinesFit(c)
    ensures Calm(c, w.proc.value)
  {
    hide Calm, MemoryAt, DiskAt, BodyAt, Complete, Idle, Holds, Only, SchemasFit, ValidSpot, LinesFit, Blames;
    var p := w.proc.value;
    if Refused(c, w.disk, p) {
      OverIsCalm(c, w);
      return;
    }
    var spot, schemas :| RunningAt(c, w.disk, p, spot, schemas);
    if InCounting(c, w.disk, p, spot, schemas) {
      CountingCalm(c, w.disk, p, spot, schemas);
    } else {
      MemoryCalm(c, p, if InEnd(c, w.disk, p, schemas) then Between(|c.sources|) else spot, schemas);
    }
  }

  function WorkOf(c: Config, w: World): Work {
    if w.proc.Some? then WorkLeft(c, w.proc.value) else Work(0, 0, 0, 0, 0, 0)
  }
}
