/** How writes, removals and renames of uncommitted files leave a spot's disk. */
module DumpDiskSteps {
  import opened Optional
  import opened DumpModel
  import opened DumpProtocol
  import opened DumpShards
  import opened DumpSpots
  import opened DumpDisk
  import opened DumpInvariant

  ghost predicate SameOutside(disk: Disk, disk': Disk, names: set<FileName>) {
    forall f :: f !in names ==> (f in disk <==> f in disk') && (f in disk ==> disk[f] == disk'[f])
  }

  lemma SourceNames(c: Config, g: nat, h: nat)
    requires ValidConfig(c) && g < |c.sources| && h < |c.sources| && c.sources[g].name == c.sources[h].name
    ensures g == h
  {
  }

  lemma TempsUncommitted(c: Config, spot: Spot, f: FileName)
    requires ValidSpot(c, spot) && f in Temps(c, spot)
    ensures !CommittedName(c, spot, f) && f != Final(CheckpointFile) && f != Final(ManifestFile)
  {
    hide ValidConfig;
    ShardSizePositive(c);
    if CommittedName(c, spot, f) {
      var h: nat :| CommittedPath(c, spot, f.path, h);
      SourceNames(c, spot.g, h);
    }
  }

  lemma StoredNames(c: Config, spot: Spot, h: nat, phase: Phase, k: nat)
    requires 0 < c.shardSize && h < |c.sources| && k < DoneShards(c, spot, h, phase)
    ensures CommittedName(c, spot, Final(EntryOf(c, h, phase, k).path))
    ensures c.parquet ==> CommittedName(c, spot, Final(ParquetOf(EntryOf(c, h, phase, k).path)))
  {
    var path := EntryOf(c, h, phase, k).path;
    assert CommittedPath(c, spot, path, h);
    assert c.parquet ==> CommittedPath(c, spot, ParquetOf(path), h);
  }

  lemma HoldsFrame(c: Config, disk: Disk, disk': Disk, spot: Spot, names: set<FileName>)
    requires 0 < c.shardSize && Holds(c, disk, spot) && SameOutside(disk, disk', names)
    requires forall f :: f in names ==> !CommittedName(c, spot, f)
    ensures Holds(c, disk', spot)
  {
    hide CommittedName, DoneShards, EntryOf, ParquetOf;
    forall h: nat, phase, k: nat | h < |c.sources| && k < DoneShards(c, spot, h, phase)
      ensures Stored(c, disk', h, phase, k)
    {
      assert Stored(c, disk, h, phase, k);
      StoredNames(c, spot, h, phase, k);
    }
  }

  /** Any change confined to uncommitted names. */
  lemma DiskChange(c: Config, disk: Disk, disk': Disk, spot: Spot, schemas: seq<GraphSchema>, junk: set<FileName>, junk': set<FileName>)
    requires ValidSpot(c, spot) && DiskAt(c, disk, spot, schemas, junk)
    requires SameOutside(disk, disk', Temps(c, spot))
    requires junk' <= Temps(c, spot) && forall f :: f in disk' && f in Temps(c, spot) ==> f in junk'
    ensures DiskAt(c, disk', spot, schemas, junk')
  {
    hide CommittedName, Temps, CheckpointAt, ValidSpot;
    ShardSizeAt(c, spot);
    forall f | f in Temps(c, spot)
      ensures !CommittedName(c, spot, f) && f != Final(CheckpointFile)
    {
      TempsUncommitted(c, spot, f);
    }
    HoldsFrame(c, disk, disk', spot, Temps(c, spot));
    assert Only(c, disk', spot, {Final(CheckpointFile)} + junk');
  }

  lemma ShardSizeAt(c: Config, spot: Spot)
    requires ValidSpot(c, spot)
    ensures 0 < c.shardSize && spot.g <= |c.sources| && (spot.Within? ==> spot.g < |c.sources|)
  {
  }

  lemma NextNames(c: Config, spot: Spot)
    requires ValidSpot(c, spot) && spot.Within?
    ensures NextJsonl(CurrentAt(c, spot.g, spot.phase, spot.j)) == JsonlAt(c, spot)
    ensures NextParquet(CurrentAt(c, spot.g, spot.phase, spot.j)) == ParquetAt(c, spot)
    ensures |PhaseFiles(CurrentAt(c, spot.g, spot.phase, spot.j).files, spot.phase)| == spot.j
  {
    hide PhaseFiles, Committed, ShardEntry, ValidConfig;
    ShardSizePositive(c);
    var s := c.sources[spot.g];
    var a, b := if spot.phase == Nodes then spot.j else Shards(c, s, Nodes), if spot.phase == Nodes then 0 else spot.j;
    assert CurrentAt(c, spot.g, spot.phase, spot.j).files == Committed(c, s, a, b);
    PhaseFilesOf(c, s, a, b);
  }

  lemma TempsAreKnown(c: Config, spot: Spot, schemas: seq<GraphSchema>)
    requires ValidSpot(c, spot)
    ensures (set f | f in KnownTemps(CheckpointAt(c, spot, schemas))) == Temps(c, spot)
  {
    hide ValidConfig, CurrentAt, NextJsonl, NextParquet, ManifestAt;
    ShardSizePositive(c);
    var ck := CheckpointAt(c, spot, schemas);
    assert ck.identity.parquet == c.parquet;
    if spot.Within? {
      NextNames(c, spot);
      forall f
        ensures f in KnownTemps(ck) <==> f in Temps(c, spot)
      {
      }
    }
  }

  // ----- Disks a crash may leave -----

  lemma ResumableIsIdle(c: Config, disk: Disk, spot: Spot, schemas: seq<GraphSchema>, junk: set<FileName>)
    requires ValidSpot(c, spot) && SchemasFit(c, schemas, spot.g) && DiskAt(c, disk, spot, schemas, junk)
    ensures Idle(c, disk)
  {
    hide Temps, CheckpointAt, ValidSpot, SchemasFit;
    ShardSizeAt(c, spot);
    DiskChange(c, disk, disk, spot, schemas, junk, Temps(c, spot));
    assert Resumable(c, disk, spot, schemas);
  }

  lemma NoManifest(c: Config, disk: Disk, spot: Spot, schemas: seq<GraphSchema>, junk: set<FileName>)
    requires ValidSpot(c, spot) && DiskAt(c, disk, spot, schemas, junk)
    ensures Final(ManifestFile) !in disk
  {
    hide ValidSpot;
    ShardSizeAt(c, spot);
    assert Final(ManifestFile) !in Temps(c, spot);
    assert !CommittedName(c, spot, Final(ManifestFile));
  }

  /** Idleness survives any change to the temporary checkpoint file and any removal of uncommitted files. */
  lemma IdleChange(c: Config, disk: Disk, disk': Disk, names: set<FileName>)
    requires Idle(c, disk) && SameOutside(disk, disk', names + {Temp(CheckpointFile)})
    requires forall f :: f in names ==> Uncommitted(disk, f) && f !in disk'
    requires Final(ManifestFile) in disk ==> disk'.Keys <= disk.Keys
    ensures Idle(c, disk')
  {
    hide DiskAt, ValidConfig, ValidSpot, Holds, Only, CheckpointAt, KnownTemps, Temps, ManifestAt;
    if Untouched(disk) {
      UntouchedChange(disk, disk', names);
    } else if exists spot, schemas :: Resumable(c, disk, spot, schemas) {
      var spot, schemas :| Resumable(c, disk, spot, schemas);
      ResumableChange(c, disk, disk', names, spot, schemas);
    } else {
      var schemas :| Complete(c, disk, schemas);
      CompleteChange(c, disk, disk', names, schemas);
    }
  }

  lemma UntouchedChange(disk: Disk, disk': Disk, names: set<FileName>)
    requires Untouched(disk) && SameOutside(disk, disk', names + {Temp(CheckpointFile)})
    requires forall f :: f in names ==> f !in disk'
    ensures Untouched(disk')
  {
  }

  lemma ResumableChange(c: Config, disk: Disk, disk': Disk, names: set<FileName>, spot: Spot, schemas: seq<GraphSchema>)
    requires Resumable(c, disk, spot, schemas) && SameOutside(disk, disk', names + {Temp(CheckpointFile)})
    requires forall f :: f in names ==> Uncommitted(disk, f)
    ensures Resumable(c, disk', spot, schemas)
  {
    hide ValidSpot, Holds, Only, KnownTemps, SchemasFit, CheckpointAt;
    ShardSizeAt(c, spot);
    TempsAreKnown(c, spot, schemas);
    assert forall f :: f in names ==> f in Temps(c, spot);
    DiskChange(c, disk, disk', spot, schemas, Temps(c, spot), Temps(c, spot));
  }

  lemma CompleteChange(c: Config, disk: Disk, disk': Disk, names: set<FileName>, schemas: seq<GraphSchema>)
    requires Complete(c, disk, schemas) && SameOutside(disk, disk', names + {Temp(CheckpointFile)})
    requires forall f :: f in names ==> Uncommitted(disk, f)
    requires disk'.Keys <= disk.Keys
    ensures Complete(c, disk', schemas)
  {
    hide ValidConfig, KnownTemps, SchemasFit, CheckpointAt, ManifestAt, CommittedName, Holds, Temps;
    ShardSizePositive(c);
    var spot := Between(|c.sources|);
    assert ValidSpot(c, spot);
    var all := names + {Temp(CheckpointFile)};
    TempsAreKnown(c, spot, schemas);
    TempsBetween(c, |c.sources|);
    assert forall f :: f in all ==> f in Temps(c, spot);
    forall f | f in all
      ensures !CommittedName(c, spot, f) && f != Final(ManifestFile) && f != Final(CheckpointFile)
    {
      TempsUncommitted(c, spot, f);
    }
    HoldsFrame(c, disk, disk', spot, all);
  }

  lemma TempsBetween(c: Config, g: nat)
    ensures Temps(c, Between(g)) == {Temp(CheckpointFile), Temp(ManifestFile)}
  {
  }
}
