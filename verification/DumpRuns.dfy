/** Whole runs: any number of crashes and resumptions, at any step. */
module DumpRuns {
  import opened Optional
  import opened DumpModel
  import opened DumpProtocol
  import opened DumpShards
  import opened DumpSpots
  import opened DumpDisk
  import opened DumpInvariant
  import opened DumpDiskSteps
  import opened DumpSteps
  import opened DumpScanSteps
  import opened DumpCommitSteps

  // ----- Replacing the checkpoint -----

  lemma BodyFrame(c: Config, p: Process, p': Process, spot: Spot, pc: Pc)
    requires BodyAt(c, p, spot, pc) && p' == p.(pc := p'.pc)
    ensures BodyAt(c, p', spot, pc)
  {
    hide Seen, KindsOfRows, ItemsOf, CountAll;
  }

  lemma OnlyChange(c: Config, disk: Disk, disk': Disk, spot: Spot, extra: set<FileName>, extra': set<FileName>)
    requires 0 < c.shardSize && Only(c, disk, spot, extra)
    requires forall f :: f in disk' && f !in extra' ==> f in disk && f !in extra
    ensures Only(c, disk', spot, extra')
  {
    hide CommittedName;
  }

  lemma PersistWrites(c: Config, w: World, p: Process, spot: Spot, schemas: seq<GraphSchema>)
    requires w.proc == Some(p) && InPersist(c, w.disk, p, spot, schemas) && p.pc.stage < 2
    ensures Good(c, Step(c, w))
  {
    hide SchemasFit, ValidSpot, CheckpointAt, BodyAt, Holds, Only, Idle, JunkAt, CommittedPath;
    ShardSizeAt(c, spot);
    var w' := Step(c, w);
    var p' := w'.proc.value;
    BodyFrame(c, p, p', spot, p.pc.next);
    JunkFrame(c, p, p', spot, p.pc.next);
    assert SameOutside(w.disk, w'.disk, {Temp(CheckpointFile)});
    assert SameOutside(w.disk, w'.disk, {} + {Temp(CheckpointFile)});
    IdleChange(c, w.disk, w'.disk, {});
    HoldsFrame(c, w.disk, w'.disk, spot, {Temp(CheckpointFile)});
    OnlyChange(c, w.disk, w'.disk, spot, {Final(CheckpointFile), Temp(CheckpointFile)}, {Final(CheckpointFile), Temp(CheckpointFile)});
    assert InPersist(c, w'.disk, p', spot, schemas);
    assert RunningAt(c, w'.disk, p', spot, schemas);
  }

  lemma JunkFrame(c: Config, p: Process, p': Process, spot: Spot, pc: Pc)
    requires spot.Within? ==> spot.g < |c.sources|
    requires p' == p.(pc := p'.pc)
    ensures JunkAt(c, p', spot, pc) == JunkAt(c, p, spot, pc)
  {
  }

  /** Where a checkpoint is persisted, no fragment is staged. */
  lemma NothingStaged(c: Config, disk: Disk, p: Process, spot: Spot, pc: Pc)
    requires spot.Within? ==> spot.g < |c.sources|
    requires JunkAt(c, p, spot, pc) == {}
    ensures StagedAt(c, disk, p, spot, pc)
  {
    if spot.Within? {
      assert Temp(JsonlAt(c, spot)) in StagingNames(c, spot) && Final(JsonlAt(c, spot)) in OutputNames(c, spot);
    }
  }

  lemma PersistRenames(c: Config, w: World, p: Process, spot: Spot, schemas: seq<GraphSchema>)
    requires w.proc == Some(p) && InPersist(c, w.disk, p, spot, schemas) && p.pc.stage == 2
    ensures Good(c, Step(c, w))
  {
    hide SchemasFit, ValidSpot, CheckpointAt, BodyAt, Holds, Only, Idle, JunkAt, StagedAt, CommittedPath, Temps;
    ShardSizeAt(c, spot);
    var w' := Step(c, w);
    var p' := w'.proc.value;
    BodyFrame(c, p, p', spot, p.pc.next);
    JunkFrame(c, p, p', spot, p.pc.next);
    NothingStaged(c, w'.disk, p', spot, p.pc.next);
    assert !CommittedName(c, spot, Final(CheckpointFile)) by { CheckpointUncommitted(c, spot); }
    HoldsFrame(c, w.disk, w'.disk, spot, {Temp(CheckpointFile), Final(CheckpointFile)});
    OnlyChange(c, w.disk, w'.disk, spot, {Final(CheckpointFile), Temp(CheckpointFile)}, {Final(CheckpointFile)} + {});
    assert InBody(c, w'.disk, p', spot, schemas);
    BodyIsGood(c, w', p', spot, schemas);
  }

  lemma CheckpointUncommitted(c: Config, spot: Spot)
    requires 0 < c.shardSize
    ensures !CommittedName(c, spot, Final(CheckpointFile)) && !CommittedName(c, spot, Final(ManifestFile))
  {
  }

  // ----- Writing the manifest -----

  lemma ManifestWrites(c: Config, w: World, p: Process, spot: Spot, schemas: seq<GraphSchema>)
    requires w.proc == Some(p) && InManifest(c, w.disk, p, spot, schemas) && p.pc.stage < 2
    ensures Good(c, Step(c, w))
  {
    hide SchemasFit, ValidConfig, DiskAt, ManifestAccepted, ExpectedGraph, ExpectedMetrics, Totals, IdentityOf;
    ShardSizePositive(c);
    AcceptsManifest(c, spot.g, schemas);
    TempsBetween(c, spot.g);
    var w' := Step(c, w);
    var p' := w'.proc.value;
    assert p.ck.manifest == ManifestAt(c, spot.g, schemas).(graphCount := spot.g);
    DiskWrite(c, w.disk, Temp(ManifestFile), w'.disk[Temp(ManifestFile)], spot, schemas, {Temp(ManifestFile)}, {Temp(ManifestFile)});
    assert w'.disk == w.disk[Temp(ManifestFile) := w'.disk[Temp(ManifestFile)]];
    assert InManifest(c, w'.disk, p', spot, schemas);
    assert RunningAt(c, w'.disk, p', spot, schemas);
  }

  lemma ManifestRenames(c: Config, w: World, p: Process, spot: Spot, schemas: seq<GraphSchema>)
    requires w.proc == Some(p) && InManifest(c, w.disk, p, spot, schemas) && p.pc.stage == 2
    ensures Good(c, Step(c, w))
  {
    hide SchemasFit, ValidConfig, Holds, Only, ManifestAt, IdentityOf, CommittedPath;
    ShardSizePositive(c);
    var w' := Step(c, w);
    var p' := w'.proc.value;
    CheckpointUncommitted(c, spot);
    HoldsFrame(c, w.disk, w'.disk, spot, {Temp(ManifestFile), Final(ManifestFile)});
    OnlyChange(c, w.disk, w'.disk, spot, {Final(CheckpointFile)} + {Temp(ManifestFile)}, {Final(ManifestFile), Final(CheckpointFile)});
    assert InEnd(c, w'.disk, p', schemas);
    assert RunningAt(c, w'.disk, p', spot, schemas);
  }

  lemma EndKeeps(c: Config, w: World, p: Process, spot: Spot, schemas: seq<GraphSchema>)
    requires w.proc == Some(p) && InEnd(c, w.disk, p, schemas)
    ensures Good(c, Step(c, w))
  {
    hide SchemasFit, ValidConfig, Holds, Only, ManifestAt, CheckpointAt, CommittedPath;
    ShardSizePositive(c);
    var w' := Step(c, w);
    var p' := w'.proc.value;
    var n := |c.sources|;
    CheckpointUncommitted(c, Between(n));
    HoldsFrame(c, w.disk, w'.disk, Between(n), {Final(CheckpointFile)});
    OnlyChange(c, w.disk, w'.disk, Between(n), {Final(ManifestFile), Final(CheckpointFile)}, {Final(ManifestFile), Final(CheckpointFile)});
    assert InEnd(c, w'.disk, p', schemas);
    assert RunningAt(c, w'.disk, p', spot, schemas);
  }

  // ----- Any step -----

  lemma BodyKeeps(c: Config, w: World, p: Process, spot: Spot, schemas: seq<GraphSchema>)
    requires w.proc == Some(p) && InBody(c, w.disk, p, spot, schemas)
    ensures Good(c, Step(c, w))
  {
    hide MemoryAt, DiskAt, JunkAt, StagedAt, Good, Step, MayScan, ReadyToPublish, PhaseDone, GatheredTo;
    match p.pc
    case CheckFiles => CheckFilesKeeps(c, w, p, spot, schemas);
    case GraphStart => GraphStartKeeps(c, w, p, spot, schemas);
    case Restore => RestoreKeeps(c, w, p, spot, schemas);
    case EnterPhase => EnterPhaseKeeps(c, w, p, spot, schemas);
    case Scan => ScanKeeps(c, w, p, spot, schemas);
    case OpenParquet => OpenParquetKeeps(c, w, p, spot, schemas);
    case CloseJsonl => CloseKeeps(c, w, p, spot, schemas);
    case CloseParquet => CloseKeeps(c, w, p, spot, schemas);
    case PublishJsonl => PublishKeeps(c, w, p, spot, schemas);
    case PublishParquet => PublishKeeps(c, w, p, spot, schemas);
    case Commit => CommitKeeps(c, w, p, spot, schemas);
    case PhaseEnd => PhaseEndKeeps(c, w, p, spot, schemas);
    case GraphEnd => GraphEndKeeps(c, w, p, spot, schemas);
    case _ =>
  }

  lemma RefusedKeeps(c: Config, w: World, p: Process)
    requires w.proc == Some(p) && Refused(c, w.disk, p)
    ensures Step(c, w) == w
  {
  }

  lemma StepKeeps(c: Config, w: World)
    requires Good(c, w) && w.proc.Some?
    ensures Good(c, Step(c, w))
  {
    hide Step, InBody, MemoryAt, DiskAt, BodyAt, Complete, Idle, Holds, Only, SchemasFit, ValidSpot;
    var p := w.proc.value;
    if Refused(c, w.disk, p) {
      RefusedKeeps(c, w, p);
      return;
    }
    var spot, schemas :| RunningAt(c, w.disk, p, spot, schemas);
    if InBody(c, w.disk, p, spot, schemas) {
      BodyKeeps(c, w, p, spot, schemas);
    } else if InCleaning(c, w.disk, p, spot, schemas) {
      CleaningKeeps(c, w, p, spot, schemas);
    } else if InCounting(c, w.disk, p, spot, schemas) {
      CountingKeeps(c, w, p, spot, schemas);
    } else if InPersist(c, w.disk, p, spot, schemas) {
      if p.pc.stage < 2 {
        PersistWrites(c, w, p, spot, schemas);
      } else {
        PersistRenames(c, w, p, spot, schemas);
      }
    } else if InManifest(c, w.disk, p, spot, schemas) {
      if p.pc.stage < 2 {
        ManifestWrites(c, w, p, spot, schemas);
      } else {
        ManifestRenames(c, w, p, spot, schemas);
      }
    } else {
      EndKeeps(c, w, p, spot, schemas);
    }
  }

  // ----- Starting, crashing, resuming -----

  lemma FirstIsAt(c: Config)
    requires 0 < c.shardSize
    ensures FirstCheckpoint(c) == CheckpointAt(c, Between(0), [])
  {
    hide IdentityOf;
    var m := ManifestAt(c, 0, []);
    assert m.graphs == [] && m.metrics == [];
  }

  lemma StartKeeps(c: Config, w: World)
    requires ValidConfig(c)
    ensures Good(c, Start(c, w))
  {
    hide CheckpointAt, FirstCheckpoint, ValidConfig;
    ShardSizePositive(c);
    FirstIsAt(c);
    var w' := Start(c, w);
    var p' := w'.proc.value;
    assert Untouched(w'.disk);
    assert Holds(c, w'.disk, Between(0));
    assert InPersist(c, w'.disk, p', Between(0), []);
    assert RunningAt(c, w'.disk, p', Between(0), []);
  }

  lemma RunningIsIdle(c: Config, disk: Disk, p: Process, spot: Spot, schemas: seq<GraphSchema>)
    requires RunningAt(c, disk, p, spot, schemas)
    ensures Idle(c, disk)
  {
    hide DiskAt, BodyAt, Complete, SchemasFit, ValidSpot, CheckpointAt, JunkAt, StagedAt, Idle, Holds, Only;
    if InBody(c, disk, p, spot, schemas) {
      ShardSizeAt(c, spot);
      ResumableIsIdle(c, disk, spot, schemas, JunkAt(c, p, spot, p.pc));
    } else if InCleaning(c, disk, p, spot, schemas) {
      ResumableIsIdle(c, disk, spot, schemas, set f | f in p.pc.paths);
    } else if InCounting(c, disk, p, spot, schemas) {
      ResumableIsIdle(c, disk, spot, schemas, {});
    } else if InManifest(c, disk, p, spot, schemas) {
      ResumableIsIdle(c, disk, spot, schemas, {Temp(ManifestFile)});
    } else if InEnd(c, disk, p, schemas) {
      CompleteIsIdle(c, disk, schemas);
    }
  }

  lemma CompleteIsIdle(c: Config, disk: Disk, schemas: seq<GraphSchema>)
    requires Complete(c, disk, schemas)
    ensures Idle(c, disk)
  {
  }

  lemma CrashKeeps(c: Config, w: World, removed: set<FileName>)
    requires Good(c, w) && CanCrash(w, removed)
    ensures Good(c, Crash(w, removed))
  {
    hide RunningAt, Idle, Uncommitted, Blames;
    if !Refused(c, w.disk, w.proc.value) {
      var spot, schemas :| RunningAt(c, w.disk, w.proc.value, spot, schemas);
      RunningIsIdle(c, w.disk, w.proc.value, spot, schemas);
    }
    IdleChange(c, w.disk, w.disk - removed, removed);
  }

  lemma ResumeKeeps(c: Config, w: World)
    requires Good(c, w) && CanResume(c, w)
    ensures Good(c, Resume(w))
  {
    hide DiskAt, CheckpointAt, ValidSpot, SchemasFit, KnownTemps, CheckpointAccepted, ManifestAt, Holds, Only, ValidConfig;
    assert !Untouched(w.disk);
    var spot, schemas :| Resumable(c, w.disk, spot, schemas);
    ShardSizeAt(c, spot);
    DiskCheckpoint(c, w.disk, spot, schemas, Temps(c, spot));
    TempsAreKnown(c, spot, schemas);
    var w' := Resume(w);
    var p' := w'.proc.value;
    assert InCleaning(c, w'.disk, p', spot, schemas);
    assert RunningAt(c, w'.disk, p', spot, schemas);
  }

  lemma DiskCheckpoint(c: Config, disk: Disk, spot: Spot, schemas: seq<GraphSchema>, junk: set<FileName>)
    requires ValidSpot(c, spot) && DiskAt(c, disk, spot, schemas, junk)
    ensures Final(CheckpointFile) in disk && disk[Final(CheckpointFile)] == CheckpointContent(CheckpointAt(c, spot, schemas))
  {
  }

  lemma NextKeeps(c: Config, w: World, w': World)
    requires ValidConfig(c) && Good(c, w) && Next(c, w, w')
    ensures Good(c, w')
  {
    hide Good, Step, Start, Crash, Resume, CanStart, CanCrash, ValidConfig, CanResume;
    if w.proc.Some? && w' == Step(c, w) {
      StepKeeps(c, w);
    } else if CanStart(w) && w' == Start(c, w) {
      StartKeeps(c, w);
    } else if exists removed :: CanCrash(w, removed) && w' == Crash(w, removed) {
      var removed :| CanCrash(w, removed) && w' == Crash(w, removed);
      CrashKeeps(c, w, removed);
    } else {
      ResumeKeeps(c, w);
    }
  }

  // ----- Theorems about every run -----

  /** Every world of every run is good. */
  lemma {:induction false} RunGood(c: Config, worlds: seq<World>, i: nat)
    requires ValidConfig(c) && Run(c, worlds) && i < |worlds|
    ensures Good(c, worlds[i])
    decreases i
  {
    hide Next, ValidConfig;
    if i == 0 {
      assert Untouched(worlds[0].disk);
    } else {
      RunGood(c, worlds, i - 1);
      NextKeeps(c, worlds[i - 1], worlds[i]);
    }
  }

  /** A good process that failed can blame the source; one that is done took all of it. */
  lemma GoodEnds(c: Config, w: World)
    requires Good(c, w) && w.proc.Some?
    ensures w.proc.value.pc.Failed? ==> Blames(c, w.proc.value.pc.cause)
    ensures w.proc.value.pc.Done? ==> Dumpable(c)
  {
    hide DiskAt, SchemasFit, CheckpointAt, StagedAt, Holds, Only, Idle, ManifestAt, ValidConfig, RowsEncode, Blames;
  }

  /** Every failure is blamed on something. */
  lemma BlamedOnSource(c: Config, cause: Failure)
    requires Blames(c, cause)
    ensures !(Dumpable(c) && LinesFit(c))
  {
    hide WithinCapacity, Encodable, LinesFit;
  }

  /** No run fails but for a graph too large to number, a record that cannot be encoded, or one too long to be read back: every
      other check of a resume, of the scan and of the manifest passes. */
  lemma NeverFails(c: Config, worlds: seq<World>, i: nat)
    requires ValidConfig(c) && Run(c, worlds) && i < |worlds| && worlds[i].proc.Some?
    ensures worlds[i].proc.value.pc.Failed? ==> Blames(c, worlds[i].proc.value.pc.cause)
    ensures worlds[i].proc.value.pc.Done? ==> Dumpable(c)
  {
    hide Run, ValidConfig, Good, Dumpable, Blames;
    RunGood(c, worlds, i);
    GoodEnds(c, worlds[i]);
  }

  /** Whenever nobody is at work, the dump is finished, or the resume accepts it, or it can start over with nothing lost. */
  lemma AlwaysResumable(c: Config, w: World)
    requires Good(c, w) && w.proc.None?
    ensures Final(ManifestFile) in w.disk || CanResume(c, w) || (CanStart(w) && Untouched(w.disk))
  {
    hide DiskAt, CheckpointAt, SchemasFit, CheckpointAccepted, ManifestAt, Holds, Only, ValidConfig, IdentityOf;
    if !Untouched(w.disk) && exists spot, schemas :: Resumable(c, w.disk, spot, schemas) {
      var spot, schemas :| Resumable(c, w.disk, spot, schemas);
      ShardSizePositive(c);
      DiskCheckpoint(c, w.disk, spot, schemas, Temps(c, spot));
      AcceptsCheckpoint(c, spot, schemas) by { assert |schemas| == spot.g by { FitLength(c, schemas, spot.g); } }
      IdentityAt(c, spot, schemas);
    }
  }

  lemma FitLength(c: Config, schemas: seq<GraphSchema>, g: nat)
    requires SchemasFit(c, schemas, g)
    ensures |schemas| == g
  {
  }

  lemma IdentityAt(c: Config, spot: Spot, schemas: seq<GraphSchema>)
    requires ValidSpot(c, spot)
    ensures CheckpointAt(c, spot, schemas).identity == IdentityOf(c)
  {
  }
}
