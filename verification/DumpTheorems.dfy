/** What a finished dump is, whatever happened on the way. */
module DumpTheorems {
  import opened Optional
  import opened DumpModel
  import opened DumpProtocol
  import opened DumpShards
  import opened DumpSpots
  import opened DumpDisk
  import opened DumpInvariant
  import opened DumpDiskSteps
  import opened DumpSteps
  import opened DumpRuns

  /** The record a directory must contain, file by file, when a dump is finished with these schemas. */
  ghost predicate Finished(c: Config, disk: Disk, schemas: seq<GraphSchema>)
    requires ValidConfig(c)
  {
    && HasContent(disk, Final(ManifestFile), ManifestContent(ManifestAt(c, |c.sources|, schemas)))
    && (forall f :: f in disk <==> f == Final(ManifestFile) || CommittedName(c, Between(|c.sources|), f))
    && Holds(c, disk, Between(|c.sources|))
  }

  lemma CompleteHasAll(c: Config, disk: Disk, schemas: seq<GraphSchema>, f: FileName)
    requires Complete(c, disk, schemas) && CommittedName(c, Between(|c.sources|), f)
    ensures f in disk
  {
    hide ValidConfig, ManifestAt, CheckpointAt, SchemasFit;
    ShardSizePositive(c);
    var spot := Between(|c.sources|);
    var h: nat :| CommittedPath(c, spot, f.path, h);
    var k := f.path.shard - 1;
    assert k < DoneShards(c, spot, h, f.path.phase);
    assert Stored(c, disk, h, f.path.phase, k);
  }

  /** A process that is done leaves exactly the manifest and the fragments it lists, with the records of the source. */
  lemma DoneIsFinished(c: Config, w: World)
    requires ValidConfig(c) && Good(c, w) && w.proc.Some? && w.proc.value.pc.Done?
    ensures exists schemas :: SchemasFit(c, schemas, |c.sources|) && Finished(c, w.disk, schemas)
  {
    hide ValidConfig, ManifestAt, CheckpointAt, SchemasFit, Holds, CommittedName, DiskAt, MemoryAt;
    ShardSizePositive(c);
    var spot, schemas :| RunningAt(c, w.disk, w.proc.value, spot, schemas);
    assert InEnd(c, w.disk, w.proc.value, schemas);
    forall f | CommittedName(c, Between(|c.sources|), f)
      ensures f in w.disk
    {
      CompleteHasAll(c, w.disk, schemas, f);
    }
    assert Finished(c, w.disk, schemas);
  }

  // ----- Unless the empty relationship kind can be lost, crashes leave no trace -----

  ghost predicate HasEmptyKind(c: Config, g: nat)
    requires g < |c.sources|
  {
    "" in KindsOfRows(c, c.sources[g].edges)
  }

  /** Some relationship has the empty string for its kind, and from some committed shard on none has it and a resume reads back
      all that is committed by then. */
  ghost predicate KindCanBeLost(c: Config, g: nat)
    requires g < |c.sources|
  {
    HasEmptyKind(c, g) && CanLose(c, c.sources[g], |c.sources[g].edges|)
  }

  ghost predicate Determined(c: Config) {
    forall g :: 0 <= g < |c.sources| ==> !KindCanBeLost(c, g)
  }

  /** Where every record can be read back, the empty kind can be lost exactly where it occurs. */
  lemma CanBeLostWhenRead(c: Config, g: nat)
    requires ValidConfig(c) && LinesFit(c) && g < |c.sources|
    ensures KindCanBeLost(c, g) <==> HasEmptyKind(c, g)
  {
    var s := c.sources[g];
    var j := Shards(c, s, Edges);
    CutFull(|s.edges|, c.shardSize, j);
    assert LostAt(c, s, j, |s.edges|);
  }

  /** In terms of the source: some relationship has a kind, and that kind is the empty string. */
  lemma EmptyKindMeans(c: Config, g: nat)
    requires ValidConfig(c) && g < |c.sources|
    ensures HasEmptyKind(c, g) <==> exists i :: 0 <= i < |c.sources[g].edges| && c.sources[g].edges[i].EdgeRow? && c.sources[g].edges[i].kind == Some("")
  {
    SourceValid(c, g);
    var rows := c.sources[g].edges;
    if HasEmptyKind(c, g) {
      var i :| 0 <= i < |rows| && "" in ScannedKinds(c, rows[i]);
      assert rows[i].kind == Some("");
    }
    if i :| 0 <= i < |rows| && rows[i].EdgeRow? && rows[i].kind == Some("") {
      assert "" in ScannedKinds(c, rows[i]);
    }
  }

  lemma SchemasExact(c: Config, schemas: seq<GraphSchema>)
    requires 0 < c.shardSize && SchemasFit(c, schemas, |c.sources|) && Determined(c)
    ensures ManifestAt(c, |c.sources|, schemas) == ExpectedManifest(c)
  {
    hide KindsOfRows, ExpectedGraph, ExpectedMetrics, CanLose;
    var expected := ExpectedManifest(c).schemas;
    forall h | 0 <= h < |schemas|
      ensures schemas[h] == expected[h]
    {
      assert SchemaFits(c, c.sources[h], schemas[h]);
      assert !KindCanBeLost(c, h);
      assert c.sources[h].edges[..|c.sources[h].edges|] == c.sources[h].edges;
      assert schemas[h].edgeKinds == KindsOfRows(c, c.sources[h].edges);
    }
    assert schemas == expected;
    assert ManifestAt(c, |c.sources|, schemas).graphs == ExpectedManifest(c).graphs;
    assert ManifestAt(c, |c.sources|, schemas).metrics == ExpectedManifest(c).metrics;
  }

  lemma ContentsAgree(c: Config, disk: Disk, disk': Disk, f: FileName)
    requires 0 < c.shardSize && Holds(c, disk, Between(|c.sources|)) && Holds(c, disk', Between(|c.sources|))
    requires CommittedName(c, Between(|c.sources|), f)
    ensures f in disk && f in disk' && disk[f] == disk'[f]
  {
    var spot := Between(|c.sources|);
    var h: nat :| CommittedPath(c, spot, f.path, h);
    var k := f.path.shard - 1;
    assert k < DoneShards(c, spot, h, f.path.phase);
    assert Stored(c, disk, h, f.path.phase, k) && Stored(c, disk', h, f.path.phase, k);
  }

  lemma FinishedAgree(c: Config, disk: Disk, disk': Disk, schemas: seq<GraphSchema>)
    requires ValidConfig(c) && Finished(c, disk, schemas) && Finished(c, disk', schemas)
    ensures disk == disk'
  {
    hide Holds, CommittedName, ValidConfig, ManifestAt;
    ShardSizePositive(c);
    assert disk.Keys == disk'.Keys;
    forall f | f in disk
      ensures disk[f] == disk'[f]
    {
      if f != Final(ManifestFile) {
        ContentsAgree(c, disk, disk', f);
      }
    }
  }

  /**
   * Two finished dumps of the same source under the same options are the same directory, however often either of them was
   * interrupted, provided the empty relationship kind cannot be lost.
   */
  lemma CrashesLeaveNoTrace(c: Config, run: seq<World>, run': seq<World>, i: nat, j: nat)
    requires ValidConfig(c) && Determined(c)
    requires Run(c, run) && i < |run| && run[i].proc.Some? && run[i].proc.value.pc.Done?
    requires Run(c, run') && j < |run'| && run'[j].proc.Some? && run'[j].proc.value.pc.Done?
    ensures run[i].disk == run'[j].disk
    ensures HasContent(run[i].disk, Final(ManifestFile), ManifestContent(ExpectedManifest(c)))
  {
    hide Run, Good, Finished, ManifestAt, ExpectedManifest, SchemasFit, ValidConfig, Determined;
    ShardSizePositive(c);
    RunGood(c, run, i);
    RunGood(c, run', j);
    DoneIsFinished(c, run[i]);
    DoneIsFinished(c, run'[j]);
    var schemas :| SchemasFit(c, schemas, |c.sources|) && Finished(c, run[i].disk, schemas);
    var schemas' :| SchemasFit(c, schemas', |c.sources|) && Finished(c, run'[j].disk, schemas');
    SchemasExact(c, schemas);
    SchemasExact(c, schemas');
    FinishedOf(c, run[i].disk, schemas);
    FinishedSame(c, run'[j].disk, schemas, schemas');
    FinishedAgree(c, run[i].disk, run'[j].disk, schemas);
  }

  lemma FinishedOf(c: Config, disk: Disk, schemas: seq<GraphSchema>)
    requires ValidConfig(c) && Finished(c, disk, schemas)
    ensures HasContent(disk, Final(ManifestFile), ManifestContent(ManifestAt(c, |c.sources|, schemas)))
  {
  }

  lemma FinishedSame(c: Config, disk: Disk, schemas: seq<GraphSchema>, schemas': seq<GraphSchema>)
    requires ValidConfig(c) && Finished(c, disk, schemas') && ManifestAt(c, |c.sources|, schemas) == ManifestAt(c, |c.sources|, schemas')
    ensures Finished(c, disk, schemas)
  {
    hide Holds, CommittedName;
  }
}
