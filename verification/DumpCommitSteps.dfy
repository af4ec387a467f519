/** The steps that publish a fragment, commit it, and move on to the next phase, graph, or manifest. */
module DumpCommitSteps {
  import opened Optional
  import opened DumpModel
  import opened DumpProtocol
  import opened DumpShards
  import opened DumpSpots
  import opened DumpDisk
  import opened DumpInvariant
  import opened DumpDiskSteps
  import opened DumpSteps
  import opened DumpScanSteps

  // ----- Publishing -----

  lemma ReadyFrame(c: Config, p: Process, p': Process, spot: Spot)
    requires ReadyToPublish(c, p, spot) && p' == p.(pc := p'.pc)
    ensures ReadyToPublish(c, p', spot)
  {
    hide Scanning;
    ScanningFrame(c, p, p', spot);
  }

  lemma CloseKeeps(c: Config, w: World, p: Process, spot: Spot, schemas: seq<GraphSchema>)
    requires w.proc == Some(p) && InBody(c, w.disk, p, spot, schemas) && (p.pc.CloseJsonl? || p.pc.CloseParquet?)
    ensures Good(c, Step(c, w))
  {
    hide SchemasFit, ValidConfig, CheckpointAt, DiskAt, Scanning, NextJsonl, NextParquet, Temps, StagingNames;
    ShardSizePositive(c);
    assert spot.Within? by { WithinWhenReady(c, p, spot); }
    SameRows(c, p, spot, schemas);
    StagingAreTemps(c, spot);
    var w' := Step(c, w);
    var p' := w'.proc.value;
    ReadyFrame(c, p, p', spot);
    var f := if p.pc.CloseJsonl? then Temp(JsonlAt(c, spot)) else Temp(ParquetAt(c, spot));
    DiskWrite(c, w.disk, f, w'.disk[f], spot, schemas, StagingNames(c, spot), StagingNames(c, spot));
    assert w'.disk == w.disk[f := w'.disk[f]];
    assert StagedAt(c, w'.disk, p', spot, p'.pc);
    assert InBody(c, w'.disk, p', spot, schemas);
    BodyIsGood(c, w', p', spot, schemas);
  }

  lemma WithinWhenReady(c: Config, p: Process, spot: Spot)
    requires ReadyToPublish(c, p, spot)
    ensures spot.Within? && spot.g < |c.sources|
  {
  }

  lemma DiskRename(c: Config, disk: Disk, path: Path, spot: Spot, schemas: seq<GraphSchema>, junk: set<FileName>, junk': set<FileName>)
    requires ValidSpot(c, spot) && DiskAt(c, disk, spot, schemas, junk)
    requires Temp(path) in disk && Temp(path) in Temps(c, spot) && Final(path) in Temps(c, spot)
    requires junk - {Temp(path)} + {Final(path)} <= junk' <= Temps(c, spot)
    ensures DiskAt(c, Rename(disk, path), spot, schemas, junk')
  {
    hide ValidSpot, CheckpointAt, Holds, Temps;
    ShardSizeAt(c, spot);
    forall x | x in Rename(disk, path) && x in Temps(c, spot)
      ensures x in junk'
    {
      TempsUncommitted(c, spot, x);
    }
    DiskChange(c, disk, Rename(disk, path), spot, schemas, junk, junk');
  }

  /** What a rename must find and what it leaves. */
  lemma RenameStaged(c: Config, disk: Disk, p: Process, p': Process, spot: Spot)
    requires spot.Within? && spot.g < |c.sources| && p.open.Some? && p' == p.(pc := p'.pc)
    requires p.pc.PublishJsonl? || (p.pc.PublishParquet? && c.parquet)
    requires p'.pc == if p.pc.PublishJsonl? && c.parquet then PublishParquet else Commit
    requires StagedAt(c, disk, p, spot, p.pc)
    ensures var path := if p.pc.PublishJsonl? then JsonlAt(c, spot) else ParquetAt(c, spot);
            && Temp(path) in disk && StagedAt(c, Rename(disk, path), p', spot, p'.pc)
            && Temp(path) in Temps(c, spot) && Final(path) in Temps(c, spot)
            && JunkAt(c, p, spot, p.pc) - {Temp(path)} + {Final(path)} <= JunkAt(c, p', spot, p'.pc) <= Temps(c, spot)
  {
  }

  lemma PublishKeeps(c: Config, w: World, p: Process, spot: Spot, schemas: seq<GraphSchema>)
    requires w.proc == Some(p) && InBody(c, w.disk, p, spot, schemas) && (p.pc.PublishJsonl? || p.pc.PublishParquet?)
    ensures Good(c, Step(c, w))
  {
    hide SchemasFit, ValidConfig, CheckpointAt, DiskAt, ReadyToPublish, NextJsonl, NextParquet, StagedAt, JunkAt, Rename, Temps;
    ShardSizePositive(c);
    WithinWhenReady(c, p, spot);
    ReadyOpen(c, p, spot);
    SameRows(c, p, spot, schemas);
    var p' := p.(pc := if p.pc.PublishJsonl? && c.parquet then PublishParquet else Commit);
    var path := if p.pc.PublishJsonl? then JsonlAt(c, spot) else ParquetAt(c, spot);
    RenameStaged(c, w.disk, p, p', spot);
    var w' := World(Rename(w.disk, path), Some(p'));
    assert Step(c, w) == w';
    ReadyFrame(c, p, p', spot);
    DiskRename(c, w.disk, path, spot, schemas, JunkAt(c, p, spot, p.pc), JunkAt(c, p', spot, p'.pc));
    assert InBody(c, w'.disk, p', spot, schemas);
    BodyIsGood(c, w', p', spot, schemas);
  }

  lemma ReadyOpen(c: Config, p: Process, spot: Spot)
    requires ReadyToPublish(c, p, spot)
    ensures p.open.Some?
  {
  }

  // ----- Committing a shard -----

  function NextSpot(spot: Spot): Spot
    requires spot.Within?
  {
    spot.(j := spot.j + 1)
  }

  lemma CommittedOneMore(c: Config, s: GraphSource, phase: Phase, j: nat)
    requires 0 < c.shardSize
    ensures CommittedAt(c, s, phase, j + 1) == CommittedAt(c, s, phase, j) + [ShardEntry(c, s.name, phase, s.Rows(phase), j)]
  {
    hide ShardEntry;
    EntriesLast(c, s.name, phase, s.Rows(phase), j);
    assert Committed(c, s, j, 0) == ShardEntries(c, s.name, Nodes, s.nodes, j);
    assert Committed(c, s, j + 1, 0) == ShardEntries(c, s.name, Nodes, s.nodes, j + 1);
  }

  lemma ReadyEntry(c: Config, p: Process, spot: Spot)
    requires ReadyToPublish(c, p, spot)
    ensures FileEntry(spot.phase, JsonlAt(c, spot), |p.open.value|, p.open.value, p.shardCounts)
         == ShardEntry(c, c.sources[spot.g].name, spot.phase, RowsAt(c, spot), spot.j)
    ensures p.lastWritten == CursorAt(RowsAt(c, spot), p.processed) && p.lastWritten.Some?
  {
    hide ItemsOf, CountAll, GatheredTo;
    assert ShardRows(RowsAt(c, spot), c.shardSize, spot.j) == RowsAt(c, spot)[CutAt(c, spot)..p.processed];
    ItemsLength(c, RowsAt(c, spot)[CutAt(c, spot)..p.processed]);
  }

  lemma GatheredFit(c: Config, p: Process, spot: Spot, pos: nat)
    requires GatheredTo(c, p, spot, pos)
    ensures var s := c.sources[spot.g]; if spot.phase == Nodes then Taken(c, s, pos, 0) else Taken(c, s, |s.nodes|, pos)
  {
    hide Seen, KindsOfRows, CountAll, Taken;
  }

  lemma ScanningFit(c: Config, p: Process, spot: Spot)
    requires Scanning(c, p, spot)
    ensures var s := c.sources[spot.g]; if spot.phase == Nodes then Taken(c, s, p.processed, 0) else Taken(c, s, |s.nodes|, p.processed)
  {
    hide Gathered, ItemsOf, CountAll, Taken;
    GatheredFit(c, p, spot, p.processed);
  }

  lemma CommitMemory(c: Config, w: World, p: Process, spot: Spot, schemas: seq<GraphSchema>) returns (p': Process)
    requires w.proc == Some(p) && p.pc.Commit? && InBody(c, w.disk, p, spot, schemas)
    ensures spot.Within? && MemoryAt(c, p', NextSpot(spot), schemas)
    ensures Step(c, w) == Go(w, p')
    ensures p' == p.(pc := Persist(0, Scan), ck := p'.ck, open := None, shardCounts := ZERO)
  {
    hide SchemasFit, ValidConfig, DiskAt, Scanning, NextParquet, ManifestAt, IdentityOf, CommittedAt, ShardEntry, CurrentAt, NextJsonl;
    ShardSizePositive(c);
    WithinWhenReady(c, p, spot);
    SameRows(c, p, spot, schemas);
    CurrentFields(c, spot);
    ReadyEntry(c, p, spot);
    CommittedOneMore(c, c.sources[spot.g], spot.phase, spot.j);
    CutFull(|RowsAt(c, spot)|, c.shardSize, spot.j);
    var spot' := NextSpot(spot);
    ScanningFit(c, p, spot);
    assert ValidSpot(c, spot');
    CurrentFields(c, spot');
    assert CutAt(c, spot') == p.processed;
    p' := Step(c, w).proc.value;
    assert p'.ck.current.value == CurrentAt(c, spot'.g, spot'.phase, spot'.j);
  }

  lemma NewlyStored(c: Config, disk: Disk, p: Process, spot: Spot)
    requires ReadyToPublish(c, p, spot) && StagedAt(c, disk, p, spot, Commit)
    ensures Stored(c, disk, spot.g, spot.phase, spot.j)
  {
    hide Scanning, ShardEntry;
    WithinWhenReady(c, p, spot);
    ReadyEntry(c, p, spot);
    var e := EntryOf(c, spot.g, spot.phase, spot.j);
    assert e.path == JsonlAt(c, spot) && e.digest == p.open.value;
    assert ParquetOf(e.path) == ParquetAt(c, spot);
  }

  lemma CommitHolds(c: Config, disk: Disk, spot: Spot)
    requires 0 < c.shardSize && spot.Within? && spot.g < |c.sources| && Holds(c, disk, spot) && Stored(c, disk, spot.g, spot.phase, spot.j)
    ensures Holds(c, disk, NextSpot(spot))
  {
    hide Stored;
    forall h: nat, phase, k: nat | h < |c.sources| && k < DoneShards(c, NextSpot(spot), h, phase)
      ensures Stored(c, disk, h, phase, k)
    {
      if h == spot.g && phase == spot.phase && k == spot.j {
      } else {
        assert k < DoneShards(c, spot, h, phase);
      }
    }
  }

  lemma CommitOnly(c: Config, disk: Disk, spot: Spot, extra: set<FileName>)
    requires 0 < c.shardSize && spot.Within? && spot.g < |c.sources| && Only(c, disk, spot, extra + OutputNames(c, spot))
    ensures Only(c, disk, NextSpot(spot), extra)
  {
    forall f | f in disk && f !in extra
      ensures CommittedName(c, NextSpot(spot), f)
    {
      if f in OutputNames(c, spot) {
        assert CommittedPath(c, NextSpot(spot), f.path, spot.g);
      } else {
        var h: nat :| CommittedPath(c, spot, f.path, h);
        assert CommittedPath(c, NextSpot(spot), f.path, h);
      }
    }
  }

  lemma CommitBody(c: Config, p: Process, p': Process, spot: Spot)
    requires ReadyToPublish(c, p, spot) && 0 < c.shardSize
    requires p' == p.(pc := Persist(0, Scan), ck := p'.ck, open := None, shardCounts := ZERO)
    ensures BodyAt(c, p', NextSpot(spot), Scan)
  {
    hide Gathered, ItemsOf, CountAll;
    GatheredFrame(c, p, p', spot, p.processed);
    assert GatheredTo(c, p', NextSpot(spot), p.processed);
  }

  lemma CommitKeeps(c: Config, w: World, p: Process, spot: Spot, schemas: seq<GraphSchema>)
    requires w.proc == Some(p) && p.pc.Commit? && InBody(c, w.disk, p, spot, schemas)
    ensures Good(c, Step(c, w))
  {
    hide SchemasFit, ValidSpot, CheckpointAt, ReadyToPublish, Holds, Only, Stored, Idle, Step, Temps, OutputNames, MayScan;
    ShardSizeAt(c, spot);
    var p' := CommitMemory(c, w, p, spot, schemas);
    var spot' := NextSpot(spot);
    WithinWhenReady(c, p, spot);
    CommitBody(c, p, p', spot);
    assert p.open.Some? by { ReadyOpen(c, p, spot); }
    NewlyStored(c, w.disk, p, spot);
    CommitHolds(c, w.disk, spot);
    CommitOnly(c, w.disk, spot, {Final(CheckpointFile)});
    OnlyMore(c, w.disk, spot', {Final(CheckpointFile)}, {Final(CheckpointFile), Temp(CheckpointFile)});
    ResumableIsIdle(c, w.disk, spot, schemas, OutputNames(c, spot));
    NoManifest(c, w.disk, spot, schemas, OutputNames(c, spot));
    assert InPersist(c, w.disk, p', spot', schemas);
    assert RunningAt(c, w.disk, p', spot', schemas);
  }

  // ----- The end of a phase -----

  lemma PhaseTurns(c: Config, spot: Spot, h: nat, phase: Phase)
    requires 0 < c.shardSize && spot.Within? && spot.g < |c.sources| && h < |c.sources|
    requires spot.phase == Nodes && spot.j == Shards(c, c.sources[spot.g], Nodes)
    ensures DoneShards(c, spot, h, phase) == DoneShards(c, Within(spot.g, Edges, 0), h, phase)
  {
  }

  lemma EdgePhaseMemory(c: Config, w: World, p: Process, spot: Spot, schemas: seq<GraphSchema>) returns (p': Process)
    requires w.proc == Some(p) && p.pc.PhaseEnd? && InBody(c, w.disk, p, spot, schemas) && spot.Within? && spot.phase == Nodes
    ensures Step(c, w) == Go(w, p')
    ensures p' == p.(pc := Persist(0, EnterPhase), ck := p'.ck)
    ensures MemoryAt(c, p', Within(spot.g, Edges, 0), schemas)
  {
    hide SchemasFit, ValidConfig, DiskAt, ManifestAt, IdentityOf, CommittedAt, CurrentAt, GatheredTo;
    ShardSizePositive(c);
    var spot' := Within(spot.g, Edges, 0);
    SameRows(c, p, spot, schemas);
    CurrentFields(c, spot);
    GatheredFit(c, p, spot, |RowsAt(c, spot)|);
    CurrentFields(c, spot');
    assert CommittedAt(c, c.sources[spot.g], Edges, 0) == CommittedAt(c, c.sources[spot.g], Nodes, spot.j) by { TurnFiles(c, c.sources[spot.g]); }
    p' := Step(c, w).proc.value;
    assert p'.ck.current.value == CurrentAt(c, spot'.g, spot'.phase, spot'.j);
  }

  lemma TurnFiles(c: Config, s: GraphSource)
    requires 0 < c.shardSize
    ensures CommittedAt(c, s, Edges, 0) == CommittedAt(c, s, Nodes, Shards(c, s, Nodes))
  {
  }

  lemma PhaseEndKeeps(c: Config, w: World, p: Process, spot: Spot, schemas: seq<GraphSchema>)
    requires w.proc == Some(p) && p.pc.PhaseEnd? && InBody(c, w.disk, p, spot, schemas)
    ensures Good(c, Step(c, w))
  {
    hide SchemasFit, ValidSpot, CheckpointAt, Gathered, Holds, Only, Idle, Temps;
    ShardSizeAt(c, spot);
    if spot.phase == Edges {
      SameRowsPhase(c, p, spot, schemas);
      var p' := p.(pc := GraphEnd);
      assert Step(c, w) == Go(w, p');
      GatheredFrame(c, p, p', spot, |RowsAt(c, spot)|);
      StaysGood(c, w, p, p', spot, schemas);
    } else {
      var p' := EdgePhaseMemory(c, w, p, spot, schemas);
      var spot' := Within(spot.g, Edges, 0);
      GatheredFrame(c, p, p', spot, |RowsAt(c, spot)|);
      assert GatheredTo(c, p', spot', 0);
      forall h: nat, phase | h < |c.sources|
        ensures DoneShards(c, spot, h, phase) == DoneShards(c, spot', h, phase)
      {
        PhaseTurns(c, spot, h, phase);
      }
      MovesOn(c, w, p, p', spot, spot', schemas, schemas);
    }
  }

  lemma SameRowsPhase(c: Config, p: Process, spot: Spot, schemas: seq<GraphSchema>)
    requires MemoryAt(c, p, spot, schemas) && spot.Within?
    ensures p.ck.current.Some? && p.ck.current.value.phase == spot.phase
  {
    SameRows(c, p, spot, schemas);
  }

  /** Persisting a new spot that commits no new file. */
  lemma MovesOn(c: Config, w: World, p: Process, p': Process, spot: Spot, spot': Spot, schemas: seq<GraphSchema>, schemas': seq<GraphSchema>)
    requires InBody(c, w.disk, p, spot, schemas) && JunkAt(c, p, spot, p.pc) == {}
    requires p'.pc.Persist? && p'.pc.stage == 0 && AfterPersist(p'.pc.next) && MemoryAt(c, p', spot', schemas') && BodyAt(c, p', spot', p'.pc.next)
    requires JunkAt(c, p', spot', p'.pc.next) == {}
    requires 0 < c.shardSize && forall h: nat, phase | h < |c.sources| :: DoneShards(c, spot, h, phase) == DoneShards(c, spot', h, phase)
    ensures Good(c, Go(w, p'))
  {
    hide SchemasFit, ValidSpot, CheckpointAt, BodyAt, Holds, Only, Idle, Temps, DoneShards, JunkAt, StagedAt;
    SameFiles(c, w.disk, spot, spot', {Final(CheckpointFile)} + {});
    OnlyMore(c, w.disk, spot', {Final(CheckpointFile)} + {}, {Final(CheckpointFile), Temp(CheckpointFile)});
    ResumableIsIdle(c, w.disk, spot, schemas, {});
    NoManifest(c, w.disk, spot, schemas, {});
    assert InPersist(c, w.disk, p', spot', schemas');
    assert RunningAt(c, w.disk, p', spot', schemas');
  }

  // ----- The end of a graph -----

  lemma GraphTurns(c: Config, spot: Spot, h: nat, phase: Phase)
    requires 0 < c.shardSize && spot.Within? && spot.g < |c.sources| && h < |c.sources|
    requires spot.phase == Edges && spot.j == Shards(c, c.sources[spot.g], Edges)
    ensures DoneShards(c, spot, h, phase) == DoneShards(c, Between(spot.g + 1), h, phase)
  {
  }

  function SchemaOf(c: Config, p: Process, g: nat): GraphSchema
    requires g < |c.sources|
  {
    GraphSchema(c.sources[g].name, p.nodeKinds, p.edgeKinds)
  }

  lemma AllGathered(c: Config, p: Process, spot: Spot)
    requires PhaseDone(c, p, spot) && spot.phase == Edges
    ensures var s := c.sources[spot.g];
            && SchemaFits(c, s, SchemaOf(c, p, spot.g))
            && GraphMetrics(s.name, p.observed) == ExpectedMetrics(c, s)
            && p.nodeCounts == CountAll(c, s.nodes) && p.edgeCounts == CountAll(c, s.edges)
  {
    hide KindsOfRows, CountAll, ObserveAll, ItemsOf;
    var s := c.sources[spot.g];
    assert s.nodes[..|s.nodes|] == s.nodes && s.edges[..|s.edges|] == s.edges;
  }

  lemma GraphFilesDone(c: Config, spot: Spot)
    requires 0 < c.shardSize && spot.Within? && spot.g < |c.sources| && spot.phase == Edges && spot.j == Shards(c, c.sources[spot.g], Edges)
    ensures var s := c.sources[spot.g];
            && CommittedAt(c, s, Edges, spot.j) == AllFiles(c, s)
            && PhaseTotal(AllFiles(c, s), Nodes) == |s.nodes| && PhaseTotal(AllFiles(c, s), Edges) == |s.edges|
  {
    AllFilesTotals(c, c.sources[spot.g]);
  }

  lemma ManifestGrows(c: Config, g: nat, schemas: seq<GraphSchema>, schema: GraphSchema)
    requires 0 < c.shardSize && g < |c.sources|
    ensures var m := ManifestAt(c, g, schemas);
            ManifestAt(c, g + 1, schemas + [schema]) ==
            m.(graphs := m.graphs + [ExpectedGraph(c, c.sources[g])], schemas := schemas + [schema],
               metrics := m.metrics + [ExpectedMetrics(c, c.sources[g])],
               nodeTotals := m.nodeTotals.Plus(CountAll(c, c.sources[g].nodes)), edgeTotals := m.edgeTotals.Plus(CountAll(c, c.sources[g].edges)))
  {
    hide ExpectedGraph, ExpectedMetrics, Counts.Plus, CountAll;
    var m, m' := ManifestAt(c, g, schemas), ManifestAt(c, g + 1, schemas + [schema]);
    assert m'.graphs == m.graphs + [ExpectedGraph(c, c.sources[g])];
    assert m'.metrics == m.metrics + [ExpectedMetrics(c, c.sources[g])];
  }

  lemma GraphEndMemory(c: Config, w: World, p: Process, spot: Spot, schemas: seq<GraphSchema>) returns (p': Process)
    requires w.proc == Some(p) && p.pc.GraphEnd? && InBody(c, w.disk, p, spot, schemas)
    ensures Step(c, w) == Go(w, p') && spot.g < |c.sources|
    ensures p'.pc == Persist(0, GraphStart)
    ensures MemoryAt(c, p', Between(spot.g + 1), schemas + [SchemaOf(c, p, spot.g)])
  {
    hide ValidConfig, DiskAt, ManifestAt, IdentityOf, CommittedAt, CurrentAt, Gathered, PhaseTotal, AllFiles, ExpectedMetrics, CountAll, SchemaFits, Counts.Plus;
    ShardSizePositive(c);
    SameRows(c, p, spot, schemas);
    CurrentFields(c, spot);
    GraphFilesDone(c, spot);
    GatheredFit(c, p, spot, |RowsAt(c, spot)|);
    AllGathered(c, p, spot);
    ManifestGrows(c, spot.g, schemas, SchemaOf(c, p, spot.g));
    assert ManifestAt(c, spot.g, schemas).schemas == schemas by { ManifestSchemas(c, spot.g, schemas); }
    p' := Step(c, w).proc.value;
    assert p'.ck.manifest == ManifestAt(c, spot.g + 1, schemas + [SchemaOf(c, p, spot.g)]);
    assert SchemasFit(c, schemas + [SchemaOf(c, p, spot.g)], spot.g + 1);
  }

  lemma ManifestSchemas(c: Config, g: nat, schemas: seq<GraphSchema>)
    requires 0 < c.shardSize && g <= |c.sources|
    ensures ManifestAt(c, g, schemas).schemas == schemas
  {
  }

  lemma GraphEndKeeps(c: Config, w: World, p: Process, spot: Spot, schemas: seq<GraphSchema>)
    requires w.proc == Some(p) && p.pc.GraphEnd? && InBody(c, w.disk, p, spot, schemas)
    ensures Good(c, Step(c, w))
  {
    hide ValidSpot, SchemasFit, CheckpointAt, GatheredTo, Step, DiskAt;
    ShardSizeAt(c, spot);
    var p' := GraphEndMemory(c, w, p, spot, schemas);
    var spot' := Between(spot.g + 1);
    forall h: nat, phase | h < |c.sources|
      ensures DoneShards(c, spot, h, phase) == DoneShards(c, spot', h, phase)
    {
      GraphTurns(c, spot, h, phase);
    }
    MovesOn(c, w, p, p', spot, spot', schemas, schemas + [SchemaOf(c, p, spot.g)]);
  }
}
