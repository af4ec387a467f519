/** What is committed stays, and a finished dump is final. */
module DumpFinality {
  import opened Optional
  import opened DumpModel
  import opened DumpProtocol
  import opened DumpShards
  import opened DumpSpots
  import opened DumpDisk
  import opened DumpInvariant
  import opened DumpDiskSteps
  import opened DumpRuns
  import opened DumpAcceptance

  /** The file belongs to a fragment that the durable checkpoint, or the manifest, lists. */
  ghost predicate IsCommitted(c: Config, disk: Disk, f: FileName) {
    || (&& Final(CheckpointFile) in disk && disk[Final(CheckpointFile)].CheckpointContent?
        && exists e :: Lists(disk[Final(CheckpointFile)].checkpoint, e) && NameOf(c.parquet, e, f))
    || (&& Final(ManifestFile) in disk && disk[Final(ManifestFile)].ManifestContent?
        && exists e :: InGraphs(disk[Final(ManifestFile)].manifest.graphs, e) && NameOf(c.parquet, e, f))
  }

  // ----- What the records list -----

  lemma EntryPath(c: Config, spot: Spot, i: nat) returns (h: nat)
    requires 0 < c.shardSize && ListedGraphs(spot) <= |c.sources| && i < |UpTo(c, spot, ListedGraphs(spot))|
    ensures h < |c.sources| && UpTo(c, spot, ListedGraphs(spot))[i].path.Fragment?
    ensures var path := UpTo(c, spot, ListedGraphs(spot))[i].path; path.graph == c.sources[h].name && 1 <= path.shard <= DoneShards(c, spot, h, path.phase)
  {
    hide UpTo, DoneShards;
    var files := UpTo(c, spot, ListedGraphs(spot));
    UpToEntryIs(c, spot, ListedGraphs(spot), i);
    var phase, k: nat;
    h, phase, k :| h < ListedGraphs(spot) && IsEntry(c, spot, files[i], h, phase, k);
    EntryGraph(c, spot, files[i], h, phase, k);
  }

  lemma SpotGraphs(c: Config, spot: Spot)
    requires ValidSpot(c, spot)
    ensures 0 < c.shardSize && ListedGraphs(spot) <= |c.sources|
  {
  }

  lemma ListedThenCommitted(c: Config, spot: Spot, schemas: seq<GraphSchema>, e: FileEntry, f: FileName)
    requires ValidSpot(c, spot) && 0 < c.shardSize && Lists(CheckpointAt(c, spot, schemas), e) && NameOf(c.parquet, e, f)
    ensures CommittedName(c, spot, f)
  {
    hide CheckpointAt, Lists, UpTo, DoneShards, ValidSpot;
    SpotGraphs(c, spot);
    ListedUpTo(c, spot, schemas);
    ListedAre(CheckpointAt(c, spot, schemas), e);
    var files := UpTo(c, spot, ListedGraphs(spot));
    var i :| 0 <= i < |files| && files[i] == e;
    var h := EntryPath(c, spot, i);
    assert CommittedPath(c, spot, f.path, h);
  }

  lemma CommittedThenListed(c: Config, spot: Spot, schemas: seq<GraphSchema>, f: FileName)
    requires ValidSpot(c, spot) && 0 < c.shardSize && CommittedName(c, spot, f)
    ensures exists e :: Lists(CheckpointAt(c, spot, schemas), e) && NameOf(c.parquet, e, f)
  {
    hide CheckpointAt, Lists, UpTo, DoneShards, ValidSpot, CommittedName;
    SpotGraphs(c, spot);
    ListedUpTo(c, spot, schemas);
    CommittedIsListed(c, spot, f);
    var files := UpTo(c, spot, ListedGraphs(spot));
    var i :| 0 <= i < |files| && (f == Final(files[i].path) || (c.parquet && f == Final(ParquetOf(files[i].path))));
    ListedAre(CheckpointAt(c, spot, schemas), files[i]);
    var h := EntryPath(c, spot, i);
    assert Lists(CheckpointAt(c, spot, schemas), files[i]) && NameOf(c.parquet, files[i], f);
  }

  lemma ListedIsCommitted(c: Config, spot: Spot, schemas: seq<GraphSchema>, f: FileName)
    requires ValidSpot(c, spot)
    ensures (exists e :: Lists(CheckpointAt(c, spot, schemas), e) && NameOf(c.parquet, e, f)) <==> CommittedName(c, spot, f)
  {
    hide CheckpointAt, Lists, CommittedName, NameOf, ValidConfig, TakenAt;
    ShardSizePositive(c);
    if e :| Lists(CheckpointAt(c, spot, schemas), e) && NameOf(c.parquet, e, f) {
      ListedThenCommitted(c, spot, schemas, e, f);
    }
    if CommittedName(c, spot, f) {
      CommittedThenListed(c, spot, schemas, f);
    }
  }

  /** What the files of a directory say about its progress. */
  ghost predicate IsAt(c: Config, disk: Disk, spot: Spot, schemas: seq<GraphSchema>) {
    || (ValidSpot(c, spot) && DiskAt(c, disk, spot, schemas, Temps(c, spot)))
    || (spot == Between(|c.sources|) && Complete(c, disk, schemas))
  }

  lemma IdleIsAt(c: Config, disk: Disk)
    requires Idle(c, disk) && (Final(CheckpointFile) in disk || Final(ManifestFile) in disk)
    ensures exists spot, schemas :: IsAt(c, disk, spot, schemas)
  {
    hide DiskAt, Complete, SchemasFit, ValidSpot, CheckpointAt, Temps;
    assert !Untouched(disk);
    if exists spot, schemas :: Resumable(c, disk, spot, schemas) {
      var spot, schemas :| Resumable(c, disk, spot, schemas);
      assert IsAt(c, disk, spot, schemas);
    } else {
      var schemas :| Complete(c, disk, schemas);
      assert IsAt(c, disk, Between(|c.sources|), schemas);
    }
  }

  lemma ManifestLists(c: Config, schemas: seq<GraphSchema>, e: FileEntry)
    requires 0 < c.shardSize
    ensures InGraphs(ManifestAt(c, |c.sources|, schemas).graphs, e) <==> Lists(CheckpointAt(c, Between(|c.sources|), schemas), e)
  {
    hide ManifestAt;
  }

  /** In a directory at a spot, exactly the files of the spot are committed. */
  lemma CommittedAtSpot(c: Config, disk: Disk, spot: Spot, schemas: seq<GraphSchema>, f: FileName)
    requires IsAt(c, disk, spot, schemas)
    ensures ValidSpot(c, spot) && 0 < c.shardSize && (IsCommitted(c, disk, f) <==> CommittedName(c, spot, f)) && Holds(c, disk, spot)
  {
    hide ValidConfig, CommittedName, Holds, Only, ManifestAt, Lists, InGraphs, NameOf, TakenAt, SchemasFit, Temps;
    ShardSizePositive(c);
    ListedIsCommitted(c, spot, schemas, f);
    if Complete(c, disk, schemas) && spot == Between(|c.sources|) {
      forall e
        ensures InGraphs(ManifestAt(c, |c.sources|, schemas).graphs, e) <==> Lists(CheckpointAt(c, spot, schemas), e)
      {
        ManifestLists(c, schemas, e);
      }
    } else {
      NoManifest(c, disk, spot, schemas, Temps(c, spot));
    }
  }

  // ----- What the committed files hold -----

  function ContentAt(c: Config, h: nat, path: Path): Content
    requires h < |c.sources| && (path.Fragment? || path.ParquetFragment?) && 1 <= path.shard
  {
    var e := EntryOf(c, h, path.phase, path.shard - 1);
    if path.Fragment? then JsonLines(e.digest) else ParquetRows(e.digest)
  }

  ghost predicate HoldsRows(c: Config, disk: Disk, f: FileName, h: nat) {
    && h < |c.sources| && f.Final? && (f.path.Fragment? || f.path.ParquetFragment?) && 1 <= f.path.shard && f.path.graph == c.sources[h].name
    && f in disk && disk[f] == ContentAt(c, h, f.path)
  }

  lemma CommittedHolds(c: Config, disk: Disk, spot: Spot, f: FileName)
    requires 0 < c.shardSize && Holds(c, disk, spot) && CommittedName(c, spot, f)
    ensures exists h: nat :: HoldsRows(c, disk, f, h)
  {
    hide ShardEntry, DoneShards;
    var h: nat :| CommittedPath(c, spot, f.path, h);
    assert Stored(c, disk, h, f.path.phase, f.path.shard - 1);
    assert EntryOf(c, h, f.path.phase, f.path.shard - 1).path == Fragment(f.path.graph, f.path.phase, f.path.shard) by {
      EntryShape(c, c.sources[h].name, f.path.phase, c.sources[h].Rows(f.path.phase), f.path.shard - 1);
    }
    assert HoldsRows(c, disk, f, h);
  }

  lemma HoldSame(c: Config, disk: Disk, disk': Disk, f: FileName)
    requires ValidConfig(c) && (exists h: nat :: HoldsRows(c, disk, f, h)) && (exists h: nat :: HoldsRows(c, disk', f, h))
    ensures f in disk && f in disk' && disk[f] == disk'[f]
  {
    hide ContentAt;
    var h: nat :| HoldsRows(c, disk, f, h);
    var h': nat :| HoldsRows(c, disk', f, h');
    assert h == h' by { OneName(c, h, h'); }
  }

  lemma OneName(c: Config, g: nat, h: nat)
    requires ValidConfig(c) && g < |c.sources| && h < |c.sources| && c.sources[g].name == c.sources[h].name
    ensures g == h
  {
  }

  lemma CommittedIsThere(c: Config, disk: Disk, f: FileName)
    requires Idle(c, disk) && IsCommitted(c, disk, f)
    ensures exists h: nat :: HoldsRows(c, disk, f, h)
  {
    hide IsAt, Idle, HoldsRows, Lists, InGraphs, NameOf;
    IdleIsAt(c, disk);
    var spot, schemas :| IsAt(c, disk, spot, schemas);
    CommittedAtSpot(c, disk, spot, schemas, f);
    CommittedHolds(c, disk, spot, f);
  }

  // ----- The checkpoint and the manifest over one move -----

  predicate SameFile(disk: Disk, disk': Disk, f: FileName) {
    (f in disk <==> f in disk') && (f in disk ==> disk[f] == disk'[f])
  }

  predicate SameRecords(disk: Disk, disk': Disk) {
    SameFile(disk, disk', Final(CheckpointFile)) && SameFile(disk, disk', Final(ManifestFile))
  }

  lemma SameRecordsKeep(c: Config, disk: Disk, disk': Disk, f: FileName)
    requires SameRecords(disk, disk') && IsCommitted(c, disk, f)
    ensures IsCommitted(c, disk', f)
  {
    hide Lists, InGraphs, NameOf;
  }

  /** The steps that replace the checkpoint, publish the manifest, or remove the checkpoint. */
  predicate MovesRecords(pc: Pc) {
    (pc.Persist? && pc.stage >= 2) || (pc.WriteManifest? && pc.stage >= 2) || pc.RemoveCheckpoint?
  }

  /** The steps that write fragments touch neither. */
  lemma PublishingStep(c: Config, w: World, p: Process)
    requires p.ck.current.Some? && p.open.Some?
    ensures SameRecords(w.disk, StepPublish(c, w, p).disk)
  {
    hide NextShard;
  }

  lemma ScanningStep(c: Config, w: World, p: Process)
    requires p.ck.current.Some?
    ensures SameRecords(w.disk, StepScan(c, w, p).disk) && SameRecords(w.disk, StepOpenParquet(w, p).disk)
  {
    hide NextShard, Query, Observable, CountsOf, Counts.Plus, ScannedKinds, ItemOf, CurrentRows, Observe;
  }

  /** The steps within a graph that only think leave the disk alone. */
  lemma ThinkingSteps(c: Config, w: World, p: Process)
    requires p.ck.current.Some?
    ensures StepCountEntities(c, w, p).disk == w.disk && StepRestore(c, w, p).disk == w.disk && StepEnterPhase(c, w, p).disk == w.disk
    ensures StepPhaseEnd(w, p).disk == w.disk && StepGraphEnd(c, w, p).disk == w.disk
    ensures p.open.Some? ==> StepCommit(w, p).disk == w.disk
  {
    hide Restorable, PhaseTotal, PhaseFiles, Counts.Plus, KindsOfItems, Records, ObserveAll, FileCounts, AllShort, CurrentRows, SourceOf, SnapshotOf, NextJsonl;
  }

  lemma CheckingSteps(c: Config, w: World, p: Process)
    ensures StepCheckFiles(c, w, p).disk == w.disk && StepGraphStart(c, w, p).disk == w.disk
    ensures p.pc.Persist? && p.pc.stage < 2 ==> SameRecords(w.disk, StepPersist(w, p).disk)
    ensures p.pc.WriteManifest? && p.pc.stage < 2 ==> SameRecords(w.disk, StepWriteManifest(w, p).disk)
  {
    hide FilesAccepted, ManifestAccepted, SnapshotOf;
  }

  lemma OtherSteps(c: Config, w: World)
    requires w.proc.Some? && !MovesRecords(w.proc.value.pc) && !w.proc.value.pc.Cleaning?
    ensures SameRecords(w.disk, Step(c, w).disk)
  {
    hide StepPublish, StepScan, StepOpenParquet, StepCountEntities, StepRestore, StepEnterPhase, StepPhaseEnd, StepGraphEnd, StepCommit, StepCheckFiles, StepGraphStart, StepPersist, StepWriteManifest, StepCleaning;
    var p := w.proc.value;
    CheckingSteps(c, w, p);
    if p.ck.current.Some? {
      ScanningStep(c, w, p);
      ThinkingSteps(c, w, p);
      if p.open.Some? {
        PublishingStep(c, w, p);
      }
    }
  }

  lemma CleaningSpot(c: Config, w: World) returns (spot: Spot, schemas: seq<GraphSchema>)
    requires Good(c, w) && w.proc.Some? && w.proc.value.pc.Cleaning?
    ensures InCleaning(c, w.disk, w.proc.value, spot, schemas)
  {
    hide MayScan, ReadyToPublish, PhaseDone, GatheredTo, DiskAt, CheckpointAt, SchemasFit, Idle, StagedAt, JunkAt, ValidSpot, Holds, Only, Complete, Blames;
    spot, schemas :| RunningAt(c, w.disk, w.proc.value, spot, schemas);
  }

  lemma CleaningStep(c: Config, w: World)
    requires Good(c, w) && w.proc.Some? && w.proc.value.pc.Cleaning?
    ensures SameRecords(w.disk, Step(c, w).disk)
  {
    hide Good, Holds, Only, CheckpointAt, SchemasFit, ValidConfig, TakenAt, JsonlAt, ParquetAt;
    var p := w.proc.value;
    var spot, schemas := CleaningSpot(c, w);
    CleansTemps(c, w, spot, schemas);
  }

  lemma CleansTemps(c: Config, w: World, spot: Spot, schemas: seq<GraphSchema>)
    requires w.proc.Some? && InCleaning(c, w.disk, w.proc.value, spot, schemas)
    ensures SameRecords(w.disk, Step(c, w).disk)
  {
    hide Holds, Only, CheckpointAt, SchemasFit, ValidConfig, TakenAt;
    var p := w.proc.value;
    if p.pc.paths != [] {
      assert p.pc.paths[0] in Temps(c, spot);
    }
  }

  // ----- The checkpoint is replaced -----

  lemma PersistSpot(c: Config, w: World) returns (spot: Spot, schemas: seq<GraphSchema>)
    requires Good(c, w) && w.proc.Some? && w.proc.value.pc.Persist?
    ensures InPersist(c, w.disk, w.proc.value, spot, schemas)
  {
    hide MayScan, ReadyToPublish, PhaseDone, GatheredTo, DiskAt, CheckpointAt, SchemasFit, Idle, StagedAt, JunkAt, ValidSpot, Holds, Only, Complete, Blames;
    spot, schemas :| RunningAt(c, w.disk, w.proc.value, spot, schemas);
  }

  lemma PersistKeeps(c: Config, w: World, f: FileName)
    requires Good(c, w) && w.proc.Some? && w.proc.value.pc.Persist? && w.proc.value.pc.stage >= 2 && IsCommitted(c, w.disk, f)
    ensures IsCommitted(c, Step(c, w).disk, f)
  {
    var spot, schemas := PersistSpot(c, w);
    hide Good, BodyAt, JunkAt, Idle, IsCommitted;
    CommittedIsThere(c, w.disk, f);
    PersistLists(c, w, spot, schemas, f);
  }

  lemma PersistLists(c: Config, w: World, spot: Spot, schemas: seq<GraphSchema>, f: FileName)
    requires w.proc.Some? && InPersist(c, w.disk, w.proc.value, spot, schemas) && w.proc.value.pc.stage >= 2
    requires exists h: nat :: HoldsRows(c, w.disk, f, h)
    ensures IsCommitted(c, Step(c, w).disk, f)
  {
    hide BodyAt, JunkAt, Idle, Holds, CheckpointAt, SchemasFit, ValidConfig, TakenAt, Lists, NameOf, InGraphs, ContentAt;
    ShardSizePositive(c);
    assert CommittedName(c, spot, f);
    ListedIsCommitted(c, spot, schemas, f);
    hide CommittedName;
  }

  // ----- The manifest is published, the checkpoint removed -----

  lemma EndSpot(c: Config, w: World) returns (schemas: seq<GraphSchema>)
    requires Good(c, w) && w.proc.Some? && w.proc.value.pc.RemoveCheckpoint?
    ensures Complete(c, w.disk, schemas)
  {
    hide MayScan, ReadyToPublish, PhaseDone, GatheredTo, DiskAt, CheckpointAt, SchemasFit, Idle, StagedAt, JunkAt, ValidSpot, Holds, Only, Complete, Blames;
    var spot;
    spot, schemas :| RunningAt(c, w.disk, w.proc.value, spot, schemas);
  }

  lemma RemovalStep(c: Config, w: World)
    requires w.proc.Some? && w.proc.value.pc.RemoveCheckpoint?
    ensures Step(c, w).disk == w.disk - {Final(CheckpointFile)}
  {
  }

  lemma CompleteLists(c: Config, disk: Disk, schemas: seq<GraphSchema>, f: FileName)
    requires Complete(c, disk, schemas) && IsCommitted(c, disk, f)
    ensures Final(ManifestFile) in disk && disk[Final(ManifestFile)].ManifestContent?
    ensures exists e :: InGraphs(disk[Final(ManifestFile)].manifest.graphs, e) && NameOf(c.parquet, e, f)
  {
    hide Holds, Only, SchemasFit, ValidConfig, TakenAt, NameOf, ManifestAt, Lists, InGraphs, CheckpointAt;
    ShardSizePositive(c);
    forall e
      ensures InGraphs(ManifestAt(c, |c.sources|, schemas).graphs, e) <==> Lists(CheckpointAt(c, Between(|c.sources|), schemas), e)
    {
      ManifestLists(c, schemas, e);
    }
  }

  lemma RemovalKeeps(c: Config, w: World, f: FileName)
    requires Good(c, w) && w.proc.Some? && w.proc.value.pc.RemoveCheckpoint? && IsCommitted(c, w.disk, f)
    ensures IsCommitted(c, Step(c, w).disk, f)
  {
    hide Good, Step, Complete, InGraphs, NameOf, Lists;
    var schemas := EndSpot(c, w);
    CompleteLists(c, w.disk, schemas, f);
    RemovalStep(c, w);
  }

  lemma PublishStep(c: Config, w: World)
    requires w.proc.Some? && w.proc.value.pc.WriteManifest?
    ensures SameFile(w.disk, Step(c, w).disk, Final(CheckpointFile))
  {
    hide ManifestAccepted;
  }

  lemma PublishKeeps(c: Config, w: World, f: FileName)
    requires Good(c, w) && w.proc.Some? && w.proc.value.pc.WriteManifest? && IsCommitted(c, w.disk, f)
    ensures IsCommitted(c, Step(c, w).disk, f)
  {
    hide Good, Lists, InGraphs, NameOf, Step, DiskAt, ValidSpot;
    var spot, schemas := ManifestSpot(c, w);
    NoManifest(c, w.disk, spot, schemas, {Temp(ManifestFile)});
    PublishStep(c, w);
  }

  lemma ManifestSpot(c: Config, w: World) returns (spot: Spot, schemas: seq<GraphSchema>)
    requires Good(c, w) && w.proc.Some? && w.proc.value.pc.WriteManifest?
    ensures ValidSpot(c, spot) && DiskAt(c, w.disk, spot, schemas, {Temp(ManifestFile)})
  {
    hide MayScan, ReadyToPublish, PhaseDone, GatheredTo, DiskAt, CheckpointAt, SchemasFit, Idle, StagedAt, JunkAt, ValidSpot, Holds, Only, Complete, Blames;
    spot, schemas :| RunningAt(c, w.disk, w.proc.value, spot, schemas);
  }

  // ----- One move -----

  lemma StepKeepsCommitted(c: Config, w: World, f: FileName)
    requires Good(c, w) && w.proc.Some? && IsCommitted(c, w.disk, f)
    ensures IsCommitted(c, Step(c, w).disk, f)
  {
    hide Good, IsCommitted, Step;
    var pc := w.proc.value.pc;
    if pc.Cleaning? {
      CleaningStep(c, w);
      SameRecordsKeep(c, w.disk, Step(c, w).disk, f);
    } else if pc.Persist? && pc.stage >= 2 {
      PersistKeeps(c, w, f);
    } else if pc.WriteManifest? {
      PublishKeeps(c, w, f);
    } else if pc.RemoveCheckpoint? {
      RemovalKeeps(c, w, f);
    } else {
      OtherSteps(c, w);
      SameRecordsKeep(c, w.disk, Step(c, w).disk, f);
    }
  }

  lemma CrashKeepsRecords(w: World, removed: set<FileName>)
    requires CanCrash(w, removed)
    ensures SameRecords(w.disk, Crash(w, removed).disk)
  {
    hide NextShard;
  }

  lemma NextKeepsCommitted(c: Config, w: World, w': World, f: FileName)
    requires ValidConfig(c) && Good(c, w) && Next(c, w, w') && IsCommitted(c, w.disk, f)
    ensures IsCommitted(c, w'.disk, f)
  {
    hide Good, Step, CanCrash, ValidConfig, CanResume, Lists, InGraphs, NameOf;
    if w.proc.Some? && w' == Step(c, w) {
      StepKeepsCommitted(c, w, f);
    } else if removed :| CanCrash(w, removed) && w' == Crash(w, removed) {
      CrashKeepsRecords(w, removed);
      SameRecordsKeep(c, w.disk, w'.disk, f);
    }
  }

  // ----- Every run -----

  lemma {:induction false} RunKeepsCommitted(c: Config, run: seq<World>, i: nat, j: nat, f: FileName)
    requires ValidConfig(c) && Run(c, run) && i <= j < |run| && IsCommitted(c, run[i].disk, f)
    ensures IsCommitted(c, run[j].disk, f)
    decreases j
  {
    hide Next, ValidConfig, IsCommitted, Good;
    if i < j {
      RunKeepsCommitted(c, run, i, j - 1, f);
      RunGood(c, run, j - 1);
      NextKeepsCommitted(c, run[j - 1], run[j], f);
    }
  }

  lemma GoodIsIdle(c: Config, w: World)
    requires Good(c, w)
    ensures Idle(c, w.disk)
  {
    hide RunningAt, Idle, Blames;
    if w.proc.Some? && !Refused(c, w.disk, w.proc.value) {
      var spot, schemas :| RunningAt(c, w.disk, w.proc.value, spot, schemas);
      RunningIsIdle(c, w.disk, w.proc.value, spot, schemas);
    }
  }

  /**
   * A committed fragment is never lost: whatever crashes and is resumed afterwards, its files are there with the same contents,
   * and some checkpoint or manifest lists it.
   */
  lemma CommittedStays(c: Config, run: seq<World>, i: nat, j: nat, f: FileName)
    requires ValidConfig(c) && Run(c, run) && i <= j < |run| && IsCommitted(c, run[i].disk, f)
    ensures IsCommitted(c, run[j].disk, f)
    ensures f in run[i].disk && f in run[j].disk && run[j].disk[f] == run[i].disk[f]
  {
    hide Run, ValidConfig, IsCommitted, Good, Idle, HoldsRows;
    RunKeepsCommitted(c, run, i, j, f);
    RunGood(c, run, i);
    RunGood(c, run, j);
    GoodIsIdle(c, run[i]);
    GoodIsIdle(c, run[j]);
    CommittedIsThere(c, run[i].disk, f);
    CommittedIsThere(c, run[j].disk, f);
    HoldSame(c, run[i].disk, run[j].disk, f);
  }

  // ----- The manifest is final -----

  lemma PersistNoManifest(c: Config, w: World)
    requires Good(c, w) && w.proc.Some? && w.proc.value.pc.Persist?
    ensures Final(ManifestFile) !in w.disk
  {
    hide Good, BodyAt, JunkAt, Idle, Holds, Only, MemoryAt;
    var spot, schemas := PersistSpot(c, w);
  }

  lemma StepKeepsManifest(c: Config, w: World)
    requires Good(c, w) && w.proc.Some? && Final(ManifestFile) in w.disk
    ensures SameFile(w.disk, Step(c, w).disk, Final(ManifestFile))
  {
    hide Good, Step, DiskAt, ValidSpot;
    var pc := w.proc.value.pc;
    if pc.Cleaning? {
      CleaningStep(c, w);
    } else if pc.Persist? {
      PersistNoManifest(c, w);
    } else if pc.WriteManifest? {
      var spot, schemas := ManifestSpot(c, w);
      NoManifest(c, w.disk, spot, schemas, {Temp(ManifestFile)});
    } else if pc.RemoveCheckpoint? {
      RemovalStep(c, w);
    } else {
      OtherSteps(c, w);
    }
  }

  lemma {:induction false} ManifestStays(c: Config, run: seq<World>, i: nat, j: nat)
    requires ValidConfig(c) && Run(c, run) && i <= j < |run| && Final(ManifestFile) in run[i].disk
    ensures SameFile(run[i].disk, run[j].disk, Final(ManifestFile))
    decreases j
  {
    hide ValidConfig, Good, Step, CanResume;
    if i < j {
      ManifestStays(c, run, i, j - 1);
      RunGood(c, run, j - 1);
      var w, w' := run[j - 1], run[j];
      assert Next(c, w, w');
      if w.proc.Some? && w' == Step(c, w) {
        StepKeepsManifest(c, w);
      } else if removed :| CanCrash(w, removed) && w' == Crash(w, removed) {
        CrashKeepsRecords(w, removed);
      }
    }
  }

  /** Where there is a manifest, every file but the checkpoint is the manifest or committed. */
  lemma CompleteFiles(c: Config, disk: Disk, f: FileName)
    requires Idle(c, disk) && Final(ManifestFile) in disk && f in disk && f != Final(CheckpointFile) && f != Final(ManifestFile)
    ensures IsCommitted(c, disk, f)
  {
    hide Idle, IsCommitted;
    var schemas := CompleteAt(c, disk);
    assert IsAt(c, disk, Between(|c.sources|), schemas);
    CommittedAtSpot(c, disk, Between(|c.sources|), schemas, f);
  }

  lemma ResumableHasNone(c: Config, disk: Disk, spot: Spot, schemas: seq<GraphSchema>)
    ensures Resumable(c, disk, spot, schemas) ==> Final(ManifestFile) !in disk
  {
    hide DiskAt, SchemasFit, ValidConfig, TakenAt, Shards;
    if Resumable(c, disk, spot, schemas) {
      NoManifest(c, disk, spot, schemas, Temps(c, spot));
    }
  }

  lemma CompleteAt(c: Config, disk: Disk) returns (schemas: seq<GraphSchema>)
    requires Idle(c, disk) && Final(ManifestFile) in disk
    ensures Complete(c, disk, schemas)
  {
    hide Complete, Resumable;
    forall spot, some
      ensures !Resumable(c, disk, spot, some)
    {
      ResumableHasNone(c, disk, spot, some);
    }
    assert !Untouched(disk);
    schemas :| Complete(c, disk, schemas);
  }

  /**
   * From the moment the manifest is published, no file of the directory changes any more but for the checkpoint, which goes away:
   * no later process resumes the dump, or starts another over it unless it is forced to replace the directory.
   */
  lemma ManifestIsFinal(c: Config, run: seq<World>, i: nat, j: nat, f: FileName)
    requires ValidConfig(c) && Run(c, run) && i <= j < |run| && Final(ManifestFile) in run[i].disk && f != Final(CheckpointFile)
    ensures SameFile(run[i].disk, run[j].disk, f)
  {
    hide Run, ValidConfig, IsCommitted, Good, Idle;
    ManifestStays(c, run, i, j);
    RunGood(c, run, i);
    RunGood(c, run, j);
    GoodIsIdle(c, run[i]);
    GoodIsIdle(c, run[j]);
    if f != Final(ManifestFile) {
      if f in run[i].disk {
        CompleteFiles(c, run[i].disk, f);
        CommittedStays(c, run, i, j, f);
      } else if f in run[j].disk {
        CompleteFiles(c, run[j].disk, f);
        ManifestSame(c, run[i].disk, run[j].disk, f);
        CommittedIsThere(c, run[i].disk, f);
      }
    }
  }

  /** The manifest alone says what is committed. */
  lemma ManifestSame(c: Config, disk: Disk, disk': Disk, f: FileName)
    requires Idle(c, disk') && Final(ManifestFile) in disk && SameFile(disk, disk', Final(ManifestFile)) && IsCommitted(c, disk', f)
    ensures IsCommitted(c, disk, f)
  {
    hide Idle, Complete, InGraphs, NameOf, Lists;
    var schemas := CompleteAt(c, disk');
    CompleteLists(c, disk', schemas, f);
  }
}
