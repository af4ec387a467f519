/** Every step keeps the invariant. */
module DumpSteps {
  import opened Optional
  import opened DumpModel
  import opened DumpProtocol
  import opened DumpShards
  import opened DumpSpots
  import opened DumpDisk
  import opened DumpInvariant
  import opened DumpDiskSteps

  lemma BodyIsGood(c: Config, w: World, p: Process, spot: Spot, schemas: seq<GraphSchema>)
    requires w.proc == Some(p) && InBody(c, w.disk, p, spot, schemas)
    ensures Good(c, w)
  {
    hide InBody;
    assert RunningAt(c, w.disk, p, spot, schemas);
  }

  // ----- Resuming -----

  lemma CleaningKeeps(c: Config, w: World, p: Process, spot: Spot, schemas: seq<GraphSchema>)
    requires w.proc == Some(p) && InCleaning(c, w.disk, p, spot, schemas)
    ensures Good(c, Step(c, w))
  {
    hide ValidSpot, SchemasFit, CheckpointAt, Holds, Only, Temps, ValidConfig;
    ShardSizeAt(c, spot);
    var w' := Step(c, w);
    var p' := w'.proc.value;
    var paths := p.pc.paths;
    var names := set f | f in paths;
    if paths == [] {
      assert names == {};
      assert InBody(c, w.disk, p', spot, schemas);
      BodyIsGood(c, w', p', spot, schemas);
    } else {
      assert p'.pc == Cleaning(paths[1..]);
      var names' := set f | f in paths[1..];
      assert names == names' + {paths[0]} by { assert paths == [paths[0]] + paths[1..]; }
      CleanedOnly(c, w.disk, spot, schemas, names, paths[0], names');
      assert InCleaning(c, w'.disk, p', spot, schemas);
      assert RunningAt(c, w'.disk, p', spot, schemas);
    }
  }

  lemma CleanedOnly(c: Config, disk: Disk, spot: Spot, schemas: seq<GraphSchema>, names: set<FileName>, f: FileName, names': set<FileName>)
    requires ValidSpot(c, spot) && DiskAt(c, disk, spot, schemas, names) && names == names' + {f}
    ensures DiskAt(c, disk - {f}, spot, schemas, names')
  {
    hide ValidSpot, CheckpointAt, Holds, Temps;
    ShardSizeAt(c, spot);
    forall x | x in disk - {f} && x in Temps(c, spot)
      ensures x in names'
    {
      TempsUncommitted(c, spot, x);
    }
    DiskChange(c, disk, disk - {f}, spot, schemas, names, names');
  }

  lemma CheckFilesKeeps(c: Config, w: World, p: Process, spot: Spot, schemas: seq<GraphSchema>)
    requires w.proc == Some(p) && p.pc.CheckFiles? && InBody(c, w.disk, p, spot, schemas)
    ensures Good(c, Step(c, w))
  {
    hide SchemasFit, Holds, Only, Temps, ValidConfig, FilesAccepted, CurrentAt, IdentityOf, ExpectedMetrics, Totals, AllFiles;
    ShardSizePositive(c);
    assert {Final(CheckpointFile)} + {} == {Final(CheckpointFile)};
    AcceptsFiles(c, w.disk, spot, schemas);
    var p' := p.(pc := GraphStart);
    assert Step(c, w) == Go(w, p');
    assert InBody(c, w.disk, p', spot, schemas);
    BodyIsGood(c, Go(w, p'), p', spot, schemas);
  }

  // ----- The start of a graph -----

  lemma GraphStartKeeps(c: Config, w: World, p: Process, spot: Spot, schemas: seq<GraphSchema>)
    requires w.proc == Some(p) && p.pc.GraphStart? && InBody(c, w.disk, p, spot, schemas)
    ensures Good(c, Step(c, w))
  {
    hide SchemasFit, Holds, ValidConfig, CurrentAt, IdentityOf, ExpectedGraph, ExpectedMetrics, Totals, CommittedName;
    ShardSizePositive(c);
    var w' := Step(c, w);
    var p' := w'.proc.value;
    assert |p.ck.manifest.graphs| == spot.g;
    if spot.g >= |c.sources| {
      TempsBetween(c, spot.g);
      assert InManifest(c, w'.disk, p', spot, schemas);
    } else {
      assert InCounting(c, w'.disk, p', spot, schemas);
    }
    assert RunningAt(c, w'.disk, p', spot, schemas);
  }

  lemma CurrentFields(c: Config, spot: Spot)
    requires ValidSpot(c, spot) && spot.Within?
    ensures var cur := CurrentAt(c, spot.g, spot.phase, spot.j);
            && cur.index == spot.g && cur.name == c.sources[spot.g].name && cur.phase == spot.phase
            && cur.snapshot == Some(SnapshotOf(c.sources[spot.g]))
            && cur.last == CursorAt(RowsAt(c, spot), CutAt(c, spot))
            && cur.files == CommittedAt(c, c.sources[spot.g], spot.phase, spot.j)
  {
  }

  lemma CountingKeeps(c: Config, w: World, p: Process, spot: Spot, schemas: seq<GraphSchema>)
    requires w.proc == Some(p) && InCounting(c, w.disk, p, spot, schemas)
    ensures Good(c, Step(c, w))
  {
    hide SchemasFit, Holds, Only, ValidConfig, CurrentAt, IdentityOf, ManifestAt, DiskAt, CommittedAt;
    ShardSizePositive(c);
    var w' := Step(c, w);
    var p' := w'.proc.value;
    if spot.Within? {
      CurrentFields(c, spot);
      assert InBody(c, w'.disk, p', spot, schemas) by { assert w'.disk == w.disk; }
      BodyIsGood(c, w', p', spot, schemas);
    } else {
      CountedFirst(c, w, p, spot, schemas);
    }
  }

  lemma FirstCurrent(c: Config, g: nat)
    requires 0 < c.shardSize && g < |c.sources|
    ensures CurrentAt(c, g, Nodes, 0) == FreshCurrent(c, g).(snapshot := Some(SnapshotOf(c.sources[g])))
  {
    assert Committed(c, c.sources[g], 0, 0) == [];
  }

  lemma SameDone(c: Config, g: nat, h: nat, phase: Phase)
    requires 0 < c.shardSize && g < |c.sources| && h < |c.sources|
    ensures DoneShards(c, Between(g), h, phase) == DoneShards(c, Within(g, Nodes, 0), h, phase)
  {
  }

  /** A change of spot that commits nothing. */
  lemma SameFiles(c: Config, disk: Disk, spot: Spot, spot': Spot, extra: set<FileName>)
    requires 0 < c.shardSize && Holds(c, disk, spot) && Only(c, disk, spot, extra)
    requires forall h: nat, phase | h < |c.sources| :: DoneShards(c, spot, h, phase) == DoneShards(c, spot', h, phase)
    ensures Holds(c, disk, spot') && Only(c, disk, spot', extra)
  {
    hide DoneShards, Stored;
    forall f | f in disk && f !in extra
      ensures CommittedName(c, spot', f)
    {
      var h: nat :| CommittedPath(c, spot, f.path, h);
      assert CommittedPath(c, spot', f.path, h);
    }
  }

  lemma OnlyMore(c: Config, disk: Disk, spot: Spot, extra: set<FileName>, extra': set<FileName>)
    requires 0 < c.shardSize && Only(c, disk, spot, extra) && extra <= extra'
    ensures Only(c, disk, spot, extra')
  {
  }

  lemma CountedFirst(c: Config, w: World, p: Process, spot: Spot, schemas: seq<GraphSchema>)
    requires w.proc == Some(p) && InCounting(c, w.disk, p, spot, schemas) && spot.Between?
    ensures Good(c, Step(c, w))
  {
    hide SchemasFit, Holds, Only, ValidConfig, CurrentAt, IdentityOf, ManifestAt, CommittedAt, Idle, DoneShards;
    ShardSizePositive(c);
    var w' := Step(c, w);
    var p' := w'.proc.value;
    var spot' := Within(spot.g, Nodes, 0);
    FirstCurrent(c, spot.g);
    ResumableIsIdle(c, w.disk, spot, schemas, {});
    NoManifest(c, w.disk, spot, schemas, {});
    forall h: nat, phase | h < |c.sources|
      ensures DoneShards(c, spot, h, phase) == DoneShards(c, spot', h, phase)
    {
      SameDone(c, spot.g, h, phase);
    }
    SameFiles(c, w.disk, spot, spot', {Final(CheckpointFile)} + {});
    OnlyMore(c, w.disk, spot', {Final(CheckpointFile)} + {}, {Final(CheckpointFile), Temp(CheckpointFile)});
    assert p'.ck == CheckpointAt(c, spot', schemas);
    assert InPersist(c, w'.disk, p', spot', schemas);
    assert RunningAt(c, w'.disk, p', spot', schemas);
  }

  // ----- Restoring -----

  /** The rows committed at a spot: nodes and relationships. */
  function NodesAt(c: Config, spot: Spot): (n: nat)
    requires spot.Within? && spot.g < |c.sources|
    ensures n <= |c.sources[spot.g].nodes|
  {
    if spot.phase == Nodes then CutAt(c, spot) else |c.sources[spot.g].nodes|
  }

  function EdgesAt(c: Config, spot: Spot): (e: nat)
    requires spot.Within? && spot.g < |c.sources|
    ensures e <= |c.sources[spot.g].edges|
  {
    if spot.phase == Nodes then 0 else CutAt(c, spot)
  }

  lemma PrefixesAt(c: Config, spot: Spot)
    requires 0 < c.shardSize && spot.Within? && spot.g < |c.sources|
    ensures var s := c.sources[spot.g];
            && CommittedAt(c, s, spot.phase, spot.j) == GraphEntries(c, spot, spot.g)
            && Prefix(c, s.nodes, DoneShards(c, spot, spot.g, Nodes)) == s.nodes[..NodesAt(c, spot)]
            && Prefix(c, s.edges, DoneShards(c, spot, spot.g, Edges)) == s.edges[..EdgesAt(c, spot)]
  {
    var s := c.sources[spot.g];
    CutFull(|s.nodes|, c.shardSize, Shards(c, s, Nodes));
  }

  lemma SeenByRecords(c: Config, s: GraphSource, n: nat, e: nat)
    requires n <= |s.nodes| && e <= |s.edges|
    ensures ObserveAll(ItemsOf(c, s.nodes[..n]) + ItemsOf(c, s.edges[..e])) == Seen(c, s, n, e)
  {
  }

  lemma RecordsAt(c: Config, spot: Spot)
    requires 0 < c.shardSize && spot.Within? && spot.g < |c.sources|
    ensures var s, files := c.sources[spot.g], CommittedAt(c, c.sources[spot.g], spot.phase, spot.j);
            && Records(files) == ItemsOf(c, s.nodes[..NodesAt(c, spot)]) + ItemsOf(c, s.edges[..EdgesAt(c, spot)])
            && ObserveAll(Records(files)) == Seen(c, s, NodesAt(c, spot), EdgesAt(c, spot))
  {
    hide Records, Committed, ItemsOf, ObserveAll, Seen, NodesAt, EdgesAt, CommittedAt, Prefix;
    var s := c.sources[spot.g];
    PrefixesAt(c, spot);
    CommittedRecords(c, s, DoneShards(c, spot, spot.g, Nodes), DoneShards(c, spot, spot.g, Edges));
    SeenByRecords(c, s, NodesAt(c, spot), EdgesAt(c, spot));
  }

  ghost predicate ReadsBack(disk: Disk, e: FileEntry) {
    && Final(e.path) in disk && disk[Final(e.path)] == JsonLines(e.digest)
    && |e.digest| == e.count
    && (forall k :: 0 <= k < |e.digest| ==> (e.digest[k].NodeItem? <==> e.phase == Nodes))
  }

  lemma EntryReadsBack(c: Config, disk: Disk, h: nat, phase: Phase, k: nat)
    requires h < |c.sources| && ValidSource(c.sources[h]) && Stored(c, disk, h, phase, k)
    ensures ReadsBack(disk, EntryOf(c, h, phase, k))
  {
    var rows := c.sources[h].Rows(phase);
    CutMonotone(|rows|, c.shardSize, k);
    assert forall i :: 0 <= i < |rows| ==> (rows[i].NodeRow? <==> phase == Nodes);
  }

  lemma EntriesReadBack(c: Config, disk: Disk, spot: Spot, i: nat)
    requires ValidSpot(c, spot) && spot.Within? && Holds(c, disk, spot) && i < |GraphEntries(c, spot, spot.g)|
    ensures ReadsBack(disk, GraphEntries(c, spot, spot.g)[i])
  {
    hide IsEntry, DoneShards, GraphEntries, ReadsBack;
    GraphEntryIs(c, spot, spot.g, i);
    var e := GraphEntries(c, spot, spot.g)[i];
    var phase, k: nat :| IsEntry(c, spot, e, spot.g, phase, k);
    EntryGraph(c, spot, e, spot.g, phase, k);
    EntryReadsBack(c, disk, spot.g, phase, k);
  }

  lemma LastRecord(c: Config, spot: Spot)
    requires ValidSpot(c, spot) && spot.Within? && spot.phase == Nodes && CutAt(c, spot) > 0
    ensures var items := Records(CommittedAt(c, c.sources[spot.g], spot.phase, spot.j));
            && items != [] && items[|items| - 1].NodeItem?
            && CursorAt(RowsAt(c, spot), CutAt(c, spot)) == Some(items[|items| - 1].id)
  {
    hide Records, CommittedAt;
    RecordsAt(c, spot);
  }

  lemma RestoreAccepts(c: Config, disk: Disk, spot: Spot)
    requires ValidSpot(c, spot) && spot.Within? && Holds(c, disk, spot)
    ensures Restorable(disk, CurrentAt(c, spot.g, spot.phase, spot.j))
  {
    hide ValidConfig, Records, AllObservable, ObserveAll, Seen, CurrentAt, GraphEntries, Holds, CommittedAt, ItemsOf;
    ShardSizePositive(c);
    var s := c.sources[spot.g];
    assert ValidSource(s) by { SourceValid(c, spot.g); }
    CurrentFields(c, spot);
    PrefixesAt(c, spot);
    RecordsAt(c, spot);
    SeenObservable(c, s, NodesAt(c, spot), EdgesAt(c, spot));
    forall i | 0 <= i < |GraphEntries(c, spot, spot.g)|
      ensures ReadsBack(disk, GraphEntries(c, spot, spot.g)[i])
    {
      EntriesReadBack(c, disk, spot, i);
    }
    if spot.phase == Nodes && CutAt(c, spot) > 0 {
      LastRecord(c, spot);
    }
  }

  lemma SourceValid(c: Config, g: nat)
    requires ValidConfig(c) && g < |c.sources|
    ensures ValidSource(c.sources[g])
  {
  }

  lemma RestoreKinds(c: Config, spot: Spot)
    requires ValidSpot(c, spot) && spot.Within?
    ensures var s, files := c.sources[spot.g], CommittedAt(c, c.sources[spot.g], spot.phase, spot.j);
            && KindsOfItems(Records(PhaseFiles(files, Nodes))) == KindsOfRows(c, s.nodes[..NodesAt(c, spot)])
            && KindsOfItems(Records(PhaseFiles(files, Edges))) == KindsOfRows(c, s.edges[..EdgesAt(c, spot)]) - {""}
            && FileCounts(PhaseFiles(files, Nodes)) == CountAll(c, s.nodes[..NodesAt(c, spot)])
            && FileCounts(PhaseFiles(files, Edges)) == CountAll(c, s.edges[..EdgesAt(c, spot)])
  {
    hide Records, PhaseFiles, ValidConfig, KindsOfItems, KindsOfRows, FileCounts, CountAll, CommittedAt, Prefix, NodesAt, EdgesAt, DoneShards, ItemsOf;
    ShardSizePositive(c);
    var s := c.sources[spot.g];
    SourceValid(c, spot.g);
    PrefixesAt(c, spot);
    var a, b := DoneShards(c, spot, spot.g, Nodes), DoneShards(c, spot, spot.g, Edges);
    PhaseFilesOf(c, s, a, b);
    EntriesRecords(c, s.name, Nodes, s.nodes, a);
    EntriesRecords(c, s.name, Edges, s.edges, b);
    EntriesCounts(c, s.name, Nodes, s.nodes, a);
    EntriesCounts(c, s.name, Edges, s.edges, b);
    NodeKindsAgree(c, s.nodes[..NodesAt(c, spot)]);
    EdgeKindsAgree(c, s.edges[..EdgesAt(c, spot)]);
  }

  /** The committed records can be read back exactly when the reader takes the lines of the committed rows. */
  lemma ReadsBackIff(c: Config, spot: Spot)
    requires 0 < c.shardSize && spot.Within? && spot.g < |c.sources|
    ensures AllShort(c, Records(CommittedAt(c, c.sources[spot.g], spot.phase, spot.j)))
            <==> RowsFit(c, c.sources[spot.g].nodes, NodesAt(c, spot)) && RowsFit(c, c.sources[spot.g].edges, EdgesAt(c, spot))
  {
    hide Records, CommittedAt, NodesAt, EdgesAt, Short;
    RecordsAt(c, spot);
    var s, n, e := c.sources[spot.g], NodesAt(c, spot), EdgesAt(c, spot);
    var nodes, edges := ItemsOf(c, s.nodes[..n]), ItemsOf(c, s.edges[..e]);
    assert forall i :: 0 <= i < n ==> nodes[i] == ItemOf(c, s.nodes[i]) && (nodes + edges)[i] == nodes[i];
    assert forall i :: 0 <= i < e ==> edges[i] == ItemOf(c, s.edges[i]) && (nodes + edges)[n + i] == edges[i];
  }

  /** What a restore has to drop, it may drop. */
  lemma RestoredKindsRecorded(c: Config, spot: Spot, kinds: set<Kind>)
    requires 0 < c.shardSize && spot.Within? && spot.g < |c.sources|
    requires RowsFit(c, c.sources[spot.g].nodes, NodesAt(c, spot)) && RowsFit(c, c.sources[spot.g].edges, EdgesAt(c, spot))
    requires kinds == KindsOfRows(c, c.sources[spot.g].edges[..EdgesAt(c, spot)]) - {""}
    ensures KindsRecorded(c, c.sources[spot.g], EdgesAt(c, spot), kinds)
  {
    if spot.phase == Nodes {
      assert KindsOfRows(c, c.sources[spot.g].edges[..0]) == {};
    } else {
      assert LostAt(c, c.sources[spot.g], spot.j, EdgesAt(c, spot));
    }
  }

  lemma TakenSoFar(c: Config, spot: Spot)
    requires ValidSpot(c, spot) && spot.Within?
    ensures Taken(c, c.sources[spot.g], NodesAt(c, spot), EdgesAt(c, spot))
  {
    hide Taken, ValidConfig;
  }

  /** A committed record that cannot be read back ends the process and leaves a disk to resume from. */
  lemma RestoreRefused(c: Config, w: World, p: Process, spot: Spot, schemas: seq<GraphSchema>)
    requires p.pc.Restore? && InBody(c, w.disk, p, spot, schemas) && spot.Within?
    requires !AllShort(c, Records(CommittedAt(c, c.sources[spot.g], spot.phase, spot.j)))
    ensures Good(c, Fail(w, p, LineTooLong))
  {
    ShardSizePositive(c);
    ReadsBackIff(c, spot);
    assert !LinesFit(c) by {
      assert NodesAt(c, spot) <= |c.sources[spot.g].nodes| && EdgesAt(c, spot) <= |c.sources[spot.g].edges|;
    }
    hide SchemasFit, ValidSpot, CheckpointAt, BodyAt, DiskAt, Idle, LinesFit, StagedAt, Temps, ValidConfig, CommittedAt, Records, RowsFit, NodesAt, EdgesAt, AllShort;
    ResumableIsIdle(c, w.disk, spot, schemas, JunkAt(c, p, spot, p.pc));
    assert Refused(c, w.disk, p.(pc := Failed(LineTooLong)));
  }

  lemma RestoreKeeps(c: Config, w: World, p: Process, spot: Spot, schemas: seq<GraphSchema>)
    requires w.proc == Some(p) && p.pc.Restore? && InBody(c, w.disk, p, spot, schemas)
    ensures Good(c, Step(c, w))
  {
    hide SchemasFit, ValidConfig, Restorable, CurrentAt, ManifestAt, IdentityOf, Records, PhaseFiles, KindsOfItems, KindsOfRows, FileCounts, CountAll, CommittedAt, ObserveAll, Seen, Holds, Only, AllShort, RowsFit, KindsRecorded, Taken, TakenAt;
    ShardSizePositive(c);
    CurrentFields(c, spot);
    ReadsBackIff(c, spot);
    var w' := Step(c, w);
    var p' := w'.proc.value;
    if !AllShort(c, Records(CommittedAt(c, c.sources[spot.g], spot.phase, spot.j))) {
      RestoreRefused(c, w, p, spot, schemas);
      assert w' == Fail(w, p, LineTooLong);
      return;
    }
    RestoreAccepts(c, w.disk, spot);
    RecordsAt(c, spot);
    RestoreKinds(c, spot);
    RestoredKindsRecorded(c, spot, p'.edgeKinds);
    TakenSoFar(c, spot);
    assert Gathered(c, p', c.sources[spot.g], NodesAt(c, spot), EdgesAt(c, spot));
    assert InBody(c, w'.disk, p', spot, schemas);
    BodyIsGood(c, w', p', spot, schemas);
  }

  // ----- Entering and scanning a phase -----

  lemma TotalAt(c: Config, spot: Spot)
    requires ValidSpot(c, spot) && spot.Within?
    ensures PhaseTotal(CommittedAt(c, c.sources[spot.g], spot.phase, spot.j), spot.phase) == CutAt(c, spot)
  {
    hide PhaseTotal;
    var s := c.sources[spot.g];
    CommittedTotals(c, s, if spot.phase == Nodes then spot.j else Shards(c, s, Nodes), if spot.phase == Nodes then 0 else spot.j);
  }

  /** The memory and the disk of a body step that leaves the checkpoint and the disk alone. */
  lemma StaysGood(c: Config, w: World, p: Process, p': Process, spot: Spot, schemas: seq<GraphSchema>)
    requires InBody(c, w.disk, p, spot, schemas) && p'.ck == p.ck
    requires BodyAt(c, p', spot, p'.pc) && StagedAt(c, w.disk, p', spot, p'.pc)
    requires JunkAt(c, p', spot, p'.pc) == JunkAt(c, p, spot, p.pc)
    ensures Good(c, Go(w, p'))
  {
    hide ValidSpot, SchemasFit, CheckpointAt, DiskAt, BodyAt, JunkAt, StagedAt;
    assert InBody(c, w.disk, p', spot, schemas);
    BodyIsGood(c, Go(w, p'), p', spot, schemas);
  }

  /** The process as it begins to scan a phase. */
  function Entered(c: Config, p: Process, spot: Spot): Process
    requires spot.Within? && spot.g < |c.sources|
  {
    p.(pc := Scan, lastID := CursorAt(RowsAt(c, spot), CutAt(c, spot)), processed := CutAt(c, spot),
       batch := [], requested := 0, accepted := 0, open := None, shardCounts := ZERO, lastWritten := None)
  }

  lemma EnterStep(c: Config, w: World, p: Process, spot: Spot, schemas: seq<GraphSchema>)
    requires w.proc == Some(p) && p.pc.EnterPhase? && MemoryAt(c, p, spot, schemas) && spot.Within?
    ensures Step(c, w) == Go(w, if |RowsAt(c, spot)| == 0 then p.(pc := PhaseEnd) else Entered(c, p, spot))
  {
    hide SchemasFit, ValidConfig, CurrentAt, ManifestAt, IdentityOf, PhaseTotal, CommittedAt;
    ShardSizePositive(c);
    CurrentFields(c, spot);
    TotalAt(c, spot);
    assert CurrentRows(c, p) == RowsAt(c, spot);
  }

  lemma EnterPhaseKeeps(c: Config, w: World, p: Process, spot: Spot, schemas: seq<GraphSchema>)
    requires w.proc == Some(p) && p.pc.EnterPhase? && InBody(c, w.disk, p, spot, schemas)
    ensures Good(c, Step(c, w))
  {
    hide SchemasFit, ValidConfig, CheckpointAt, DiskAt, Gathered, ItemsOf, Step;
    ShardSizePositive(c);
    EnterStep(c, w, p, spot, schemas);
    var p' := if |RowsAt(c, spot)| == 0 then p.(pc := PhaseEnd) else Entered(c, p, spot);
    GatheredFrame(c, p, p', spot, CutAt(c, spot));
    StaysGood(c, w, p, p', spot, schemas);
  }

  ghost predicate SameGathered(p: Process, p': Process) {
    p.observed == p'.observed && p.nodeKinds == p'.nodeKinds && p.edgeKinds == p'.edgeKinds && p.nodeCounts == p'.nodeCounts && p.edgeCounts == p'.edgeCounts
  }

  lemma GatheredFrame(c: Config, p: Process, p': Process, spot: Spot, pos: nat)
    requires GatheredTo(c, p, spot, pos) && SameGathered(p, p')
    ensures GatheredTo(c, p', spot, pos)
  {
  }
}
