/** What the disk holds at a spot, and why a resume accepts it once the leftovers of the crash are gone. */
module DumpDisk {
  import opened Optional
  import opened DumpModel
  import opened DumpProtocol
  import opened DumpShards
  import opened DumpSpots

  /** The outputs of one shard are published: the record file, and with Parquet its twin with the same records. */
  predicate Stored(c: Config, disk: Disk, h: nat, phase: Phase, k: nat)
    requires h < |c.sources|
  {
    var e := EntryOf(c, h, phase, k);
    && Final(e.path) in disk && disk[Final(e.path)] == JsonLines(e.digest)
    && (c.parquet ==> Final(ParquetOf(e.path)) in disk && disk[Final(ParquetOf(e.path))] == ParquetRows(e.digest))
  }

  ghost predicate Holds(c: Config, disk: Disk, spot: Spot)
    requires 0 < c.shardSize
  {
    forall h: nat, phase, k: nat :: h < |c.sources| && k < DoneShards(c, spot, h, phase) ==> Stored(c, disk, h, phase, k)
  }

  ghost predicate CommittedPath(c: Config, spot: Spot, path: Path, h: nat)
    requires 0 < c.shardSize
  {
    && h < |c.sources|
    && (path.Fragment? || (c.parquet && path.ParquetFragment?))
    && path.graph == c.sources[h].name
    && 1 <= path.shard <= DoneShards(c, spot, h, path.phase)
  }

  ghost predicate CommittedName(c: Config, spot: Spot, f: FileName)
    requires 0 < c.shardSize
  {
    f.Final? && exists h: nat :: CommittedPath(c, spot, f.path, h)
  }

  /** Apart from `extra`, the disk holds committed fragments only. */
  ghost predicate Only(c: Config, disk: Disk, spot: Spot, extra: set<FileName>)
    requires 0 < c.shardSize
  {
    forall f :: f in disk ==> f in extra || CommittedName(c, spot, f)
  }

  // ----- The entries a checkpoint lists -----

  ghost predicate IsEntry(c: Config, spot: Spot, e: FileEntry, h: nat, phase: Phase, k: nat)
    requires 0 < c.shardSize
  {
    h < |c.sources| && k < DoneShards(c, spot, h, phase) && e == EntryOf(c, h, phase, k)
  }

  function GraphEntries(c: Config, spot: Spot, h: nat): seq<FileEntry>
    requires 0 < c.shardSize && h < |c.sources|
  {
    Committed(c, c.sources[h], DoneShards(c, spot, h, Nodes), DoneShards(c, spot, h, Edges))
  }

  function UpTo(c: Config, spot: Spot, n: nat): seq<FileEntry>
    requires 0 < c.shardSize && n <= |c.sources|
  {
    if n == 0 then [] else UpTo(c, spot, n - 1) + GraphEntries(c, spot, n - 1)
  }

  function ListedGraphs(spot: Spot): nat {
    if spot.Within? then spot.g + 1 else spot.g
  }

  lemma {:induction false} GraphFilesUpTo(c: Config, spot: Spot, graphs: seq<GraphManifest>)
    requires 0 < c.shardSize && |graphs| <= |c.sources|
    requires forall h :: 0 <= h < |graphs| ==> graphs[h].files == GraphEntries(c, spot, h)
    ensures GraphFiles(graphs) == UpTo(c, spot, |graphs|)
  {
    hide GraphEntries;
    if graphs != [] {
      GraphFilesUpTo(c, spot, graphs[..|graphs| - 1]);
    }
  }

  lemma CompletedEntries(c: Config, spot: Spot, schemas: seq<GraphSchema>, h: nat)
    requires 0 < c.shardSize && h < spot.g <= |c.sources|
    ensures ManifestAt(c, spot.g, schemas).graphs[h].files == GraphEntries(c, spot, h)
  {
    AllFilesTotals(c, c.sources[h]);
  }

  lemma CurrentEntries(c: Config, spot: Spot)
    requires 0 < c.shardSize && spot.Within? && spot.g < |c.sources|
    ensures CurrentAt(c, spot.g, spot.phase, spot.j).files == GraphEntries(c, spot, spot.g)
  {
  }

  lemma ListedUpTo(c: Config, spot: Spot, schemas: seq<GraphSchema>)
    requires ValidSpot(c, spot)
    ensures ListedFiles(CheckpointAt(c, spot, schemas)) == UpTo(c, spot, ListedGraphs(spot))
  {
    hide GraphFiles, GraphEntries, ValidConfig, CurrentAt, ExpectedGraph, ExpectedMetrics, Totals, IdentityOf;
    ShardSizePositive(c);
    forall h | 0 <= h < spot.g
      ensures ManifestAt(c, spot.g, schemas).graphs[h].files == GraphEntries(c, spot, h)
    {
      CompletedEntries(c, spot, schemas, h);
    }
    GraphFilesUpTo(c, spot, ManifestAt(c, spot.g, schemas).graphs);
    if spot.Within? {
      CurrentEntries(c, spot);
    }
  }

  lemma ShardSizePositive(c: Config)
    requires ValidConfig(c)
    ensures 0 < c.shardSize && 0 < c.batchSize && 0 < |c.sources|
  {
  }

  lemma GraphEntryIs(c: Config, spot: Spot, h: nat, i: nat)
    requires 0 < c.shardSize && h < |c.sources| && i < |GraphEntries(c, spot, h)|
    ensures exists phase, k: nat :: IsEntry(c, spot, GraphEntries(c, spot, h)[i], h, phase, k)
  {
    var a, b := DoneShards(c, spot, h, Nodes), DoneShards(c, spot, h, Edges);
    CommittedLength(c, c.sources[h], a, b);
    CommittedIndex(c, c.sources[h], a, b, i);
    if i < a {
      assert IsEntry(c, spot, GraphEntries(c, spot, h)[i], h, Nodes, i);
    } else {
      assert IsEntry(c, spot, GraphEntries(c, spot, h)[i], h, Edges, i - a);
    }
  }

  lemma {:induction false} UpToEntryIs(c: Config, spot: Spot, n: nat, i: nat)
    requires 0 < c.shardSize && n <= |c.sources| && i < |UpTo(c, spot, n)|
    ensures exists h: nat, phase, k: nat :: h < n && IsEntry(c, spot, UpTo(c, spot, n)[i], h, phase, k)
  {
    hide IsEntry, GraphEntries;
    if i < |UpTo(c, spot, n - 1)| {
      UpToEntryIs(c, spot, n - 1, i);
      var h: nat, phase, k: nat :| h < n - 1 && IsEntry(c, spot, UpTo(c, spot, n - 1)[i], h, phase, k);
      assert IsEntry(c, spot, UpTo(c, spot, n)[i], h, phase, k);
    } else {
      var i' := i - |UpTo(c, spot, n - 1)|;
      GraphEntryIs(c, spot, n - 1, i');
      var phase, k: nat :| IsEntry(c, spot, GraphEntries(c, spot, n - 1)[i'], n - 1, phase, k);
      assert IsEntry(c, spot, UpTo(c, spot, n)[i], n - 1, phase, k);
    }
  }

  lemma {:induction false} EntryInUpTo(c: Config, spot: Spot, n: nat, h: nat, phase: Phase, k: nat)
    requires 0 < c.shardSize && h < n <= |c.sources| && k < DoneShards(c, spot, h, phase)
    ensures EntryOf(c, h, phase, k) in UpTo(c, spot, n)
  {
    hide EntryOf, ShardEntry, DoneShards;
    if h < n - 1 {
      EntryInUpTo(c, spot, n - 1, h, phase, k);
    } else {
      EntryInGraph(c, spot, h, phase, k);
    }
  }

  lemma EntryInGraph(c: Config, spot: Spot, h: nat, phase: Phase, k: nat)
    requires 0 < c.shardSize && h < |c.sources| && k < DoneShards(c, spot, h, phase)
    ensures EntryOf(c, h, phase, k) in GraphEntries(c, spot, h)
  {
    var a, b := DoneShards(c, spot, h, Nodes), DoneShards(c, spot, h, Edges);
    var i := if phase == Nodes then k else a + k;
    CommittedIndex(c, c.sources[h], a, b, i);
    assert GraphEntries(c, spot, h)[i] == EntryOf(c, h, phase, k);
  }

  /** No path is listed twice. */
  lemma {:induction false} UpToDistinct(c: Config, spot: Spot, n: nat)
    requires ValidConfig(c) && n <= |c.sources|
    ensures DistinctPaths(UpTo(c, spot, n))
  {
    hide IsEntry, GraphEntries, DoneShards;
    if n > 0 {
      UpToDistinct(c, spot, n - 1);
      var front, back := UpTo(c, spot, n - 1), GraphEntries(c, spot, n - 1);
      GraphEntriesDistinct(c, spot, n - 1);
      forall i, j | 0 <= i < |front| && 0 <= j < |back|
        ensures front[i].path != back[j].path
      {
        UpToEntryIs(c, spot, n - 1, i);
        GraphEntryIs(c, spot, n - 1, j);
        var h: nat, phase, k: nat :| h < n - 1 && IsEntry(c, spot, front[i], h, phase, k);
        var phase', k': nat :| IsEntry(c, spot, back[j], n - 1, phase', k');
        EntryGraph(c, spot, front[i], h, phase, k);
        EntryGraph(c, spot, back[j], n - 1, phase', k');
      }
    }
  }

  lemma EntryGraph(c: Config, spot: Spot, e: FileEntry, h: nat, phase: Phase, k: nat)
    requires 0 < c.shardSize && IsEntry(c, spot, e, h, phase, k)
    ensures h < |c.sources| && e.path == Fragment(c.sources[h].name, phase, k + 1)
    ensures k < DoneShards(c, spot, h, phase) && e == EntryOf(c, h, phase, k)
  {
  }

  lemma GraphEntriesDistinct(c: Config, spot: Spot, h: nat)
    requires 0 < c.shardSize && h < |c.sources|
    ensures DistinctPaths(GraphEntries(c, spot, h))
  {
    CommittedPaths(c, c.sources[h], DoneShards(c, spot, h, Nodes), DoneShards(c, spot, h, Edges));
  }

  // ----- Accepting the files -----

  lemma ListedAreStored(c: Config, disk: Disk, spot: Spot, n: nat, i: nat)
    requires 0 < c.shardSize && Holds(c, disk, spot) && n <= |c.sources| && i < |UpTo(c, spot, n)|
    ensures FilePresent(disk, c.parquet, UpTo(c, spot, n)[i])
  {
    hide IsEntry, DoneShards, UpTo;
    UpToEntryIs(c, spot, n, i);
    var e := UpTo(c, spot, n)[i];
    var h: nat, phase, k: nat :| h < n && IsEntry(c, spot, e, h, phase, k);
    EntryGraph(c, spot, e, h, phase, k);
    assert Stored(c, disk, h, phase, k);
  }

  lemma CommittedIsListed(c: Config, spot: Spot, f: FileName)
    requires ValidSpot(c, spot) && CommittedName(c, spot, f)
    ensures FileListed(c.parquet, UpTo(c, spot, ListedGraphs(spot)), f)
  {
    hide UpTo, ValidConfig;
    ShardSizePositive(c);
    var h: nat :| CommittedPath(c, spot, f.path, h);
    assert h < ListedGraphs(spot);
    var k := f.path.shard - 1;
    EntryInUpTo(c, spot, ListedGraphs(spot), h, f.path.phase, k);
    var files := UpTo(c, spot, ListedGraphs(spot));
    var i :| 0 <= i < |files| && files[i] == EntryOf(c, h, f.path.phase, k);
    assert files[i].path == Fragment(f.path.graph, f.path.phase, f.path.shard);
  }

  /** With the leftovers gone, a resume accepts the directory. */
  lemma AcceptsFiles(c: Config, disk: Disk, spot: Spot, schemas: seq<GraphSchema>)
    requires ValidSpot(c, spot) && Holds(c, disk, spot) && Only(c, disk, spot, {Final(CheckpointFile)})
    ensures FilesAccepted(disk, CheckpointAt(c, spot, schemas))
  {
    hide Holds, CommittedName, FilePresent, FileListed, UpTo, ListedFiles, DistinctPaths, ManifestAt, CurrentAt, ValidConfig;
    ShardSizePositive(c);
    ListedUpTo(c, spot, schemas);
    var n := ListedGraphs(spot);
    UpToDistinct(c, spot, n);
    forall i | 0 <= i < |UpTo(c, spot, n)|
      ensures FilePresent(disk, c.parquet, UpTo(c, spot, n)[i])
    {
      ListedAreStored(c, disk, spot, n, i);
    }
    forall f | f in disk && f != Final(CheckpointFile)
      ensures FileListed(c.parquet, UpTo(c, spot, n), f)
    {
      CommittedIsListed(c, spot, f);
    }
  }
}
