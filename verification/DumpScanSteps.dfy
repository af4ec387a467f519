/** The steps of the scan: fetching, opening a fragment, writing a record. */
module DumpScanSteps {
  import opened Optional
  import Metrics
  import opened DumpModel
  import opened DumpProtocol
  import opened DumpShards
  import opened DumpSpots
  import opened DumpDisk
  import opened DumpInvariant
  import opened DumpDiskSteps
  import opened DumpSteps

  // ----- The keyset query -----

  function Least(a: nat, b: nat): nat {
    if a < b then a else b
  }

  lemma {:induction false} QueryTail(rows: seq<Row>, after: Option<nat>, limit: nat)
    requires forall i :: 0 <= i < |rows| ==> IsAfter(after, rows[i])
    ensures Query(rows, after, limit) == rows[..Least(limit, |rows|)]
  {
    if rows != [] && limit > 0 {
      QueryTail(rows[1..], after, limit - 1);
      var n := Least(limit, |rows|);
      assert rows[..n] == [rows[0]] + rows[1..][..n - 1];
    }
  }

  lemma {:induction false} QuerySkips(rows: seq<Row>, after: Option<nat>, k: nat, pos: nat, limit: nat)
    requires k <= pos <= |rows|
    requires forall i :: 0 <= i < pos ==> !IsAfter(after, rows[i])
    requires forall i :: pos <= i < |rows| ==> IsAfter(after, rows[i])
    ensures Query(rows[k..], after, limit) == rows[pos..Least(pos + limit, |rows|)]
    decreases pos - k
  {
    if k < pos {
      QuerySkips(rows, after, k + 1, pos, limit);
      assert rows[k..][1..] == rows[k + 1..];
    } else {
      QueryTail(rows[pos..], after, limit);
    }
  }

  /** From the cursor of row `pos`, the query returns the next rows, none skipped and none repeated. */
  lemma QueryIs(rows: seq<Row>, pos: nat, limit: nat)
    requires Increasing(rows) && pos <= |rows|
    ensures Query(rows, CursorAt(rows, pos), limit) == rows[pos..Least(pos + limit, |rows|)]
  {
    assert rows[0..] == rows;
    QuerySkips(rows, CursorAt(rows, pos), 0, pos, limit);
  }

  lemma RowsIncrease(c: Config, spot: Spot)
    requires ValidSpot(c, spot) && spot.Within?
    ensures Increasing(RowsAt(c, spot))
  {
    SourceValid(c, spot.g);
  }

  lemma SameRows(c: Config, p: Process, spot: Spot, schemas: seq<GraphSchema>)
    requires MemoryAt(c, p, spot, schemas) && spot.Within?
    ensures p.ck.current.Some? && p.ck.current.value == CurrentAt(c, spot.g, spot.phase, spot.j)
    ensures CurrentRows(c, p) == RowsAt(c, spot) && p.ck.current.value.phase == spot.phase
    ensures NextJsonl(p.ck.current.value) == JsonlAt(c, spot) && NextParquet(p.ck.current.value) == ParquetAt(c, spot)
  {
    hide ValidConfig, CurrentAt, ManifestAt, NextJsonl, NextParquet;
    ShardSizePositive(c);
    CurrentFields(c, spot);
    NextNames(c, spot);
  }

  // ----- Steps that only change memory -----

  lemma ScanEnds(c: Config, w: World, p: Process, spot: Spot, schemas: seq<GraphSchema>)
    requires w.proc == Some(p) && p.pc.Scan? && InBody(c, w.disk, p, spot, schemas)
    requires p.batch == [] && p.processed >= |RowsAt(c, spot)|
    ensures Good(c, Step(c, w))
  {
    hide SchemasFit, ValidConfig, TakenAt, CheckpointAt, DiskAt, Gathered, ItemsOf, NextJsonl, NextParquet;
    ShardSizePositive(c);
    SameRows(c, p, spot, schemas);
    var p' := p.(pc := if p.open.Some? then CloseJsonl else PhaseEnd);
    assert Step(c, w) == Go(w, p');
    GatheredFrame(c, p, p', spot, p.processed);
    CutFull(|RowsAt(c, spot)|, c.shardSize, spot.j);
    if p.open.Some? {
      assert |p.open.value| == p.processed - CutAt(c, spot) by { ItemsLength(c, RowsAt(c, spot)[CutAt(c, spot)..p.processed]); }
      assert ReadyToPublish(c, p', spot);
    } else {
      assert PhaseDone(c, p', spot);
    }
    StaysGood(c, w, p, p', spot, schemas);
  }

  lemma ItemsLength(c: Config, rows: seq<Row>)
    ensures |ItemsOf(c, rows)| == |rows|
  {
  }

  lemma ScanFetches(c: Config, w: World, p: Process, spot: Spot, schemas: seq<GraphSchema>)
    requires w.proc == Some(p) && p.pc.Scan? && InBody(c, w.disk, p, spot, schemas)
    requires p.batch == [] && p.processed < |RowsAt(c, spot)|
    ensures Good(c, Step(c, w))
  {
    hide SchemasFit, ValidConfig, TakenAt, CheckpointAt, DiskAt, Gathered, ItemsOf, NextJsonl, NextParquet, Query, Increasing;
    ShardSizePositive(c);
    SameRows(c, p, spot, schemas);
    RowsIncrease(c, spot);
    var rows := RowsAt(c, spot);
    var requested := if |rows| - p.processed < c.batchSize then |rows| - p.processed else c.batchSize;
    QueryIs(rows, p.processed, requested);
    var p' := p.(batch := Query(rows, p.lastID, requested), requested := requested, accepted := 0);
    assert Step(c, w) == Go(w, p');
    GatheredFrame(c, p, p', spot, p.processed);
    StaysGood(c, w, p, p', spot, schemas);
  }

  // ----- Opening a fragment -----

  lemma BatchIsAfter(p: Process, rows: seq<Row>)
    requires Increasing(rows) && ScannedTo(p, rows) && p.batch != []
    ensures p.processed < |rows| && p.batch[0] == rows[p.processed] && IsAfter(p.lastID, p.batch[0])
  {
  }

  /** Writing an uncommitted file. */
  lemma DiskWrite(c: Config, disk: Disk, f: FileName, content: Content, spot: Spot, schemas: seq<GraphSchema>, junk: set<FileName>, junk': set<FileName>)
    requires ValidSpot(c, spot) && DiskAt(c, disk, spot, schemas, junk)
    requires f in Temps(c, spot) && junk + {f} <= junk' <= Temps(c, spot)
    ensures DiskAt(c, disk[f := content], spot, schemas, junk')
  {
    hide ValidSpot, CheckpointAt, Holds, Temps;
    ShardSizeAt(c, spot);
    forall x | x in disk[f := content] && x in Temps(c, spot)
      ensures x in junk'
    {
      TempsUncommitted(c, spot, x);
    }
    DiskChange(c, disk, disk[f := content], spot, schemas, junk, junk');
  }

  lemma StagingAreTemps(c: Config, spot: Spot)
    requires spot.Within? && spot.g < |c.sources|
    ensures StagingNames(c, spot) <= Temps(c, spot) && OutputNames(c, spot) <= Temps(c, spot)
    ensures Temp(JsonlAt(c, spot)) in StagingNames(c, spot)
    ensures c.parquet ==> Temp(ParquetAt(c, spot)) in StagingNames(c, spot)
    ensures c.parquet ==> {Final(JsonlAt(c, spot)), Temp(ParquetAt(c, spot))} <= Temps(c, spot)
    ensures Temp(ParquetAt(c, spot)) != Temp(JsonlAt(c, spot)) && {Temp(JsonlAt(c, spot))} <= StagingNames(c, spot)
    ensures c.parquet ==> StagingNames(c, spot) == {Temp(JsonlAt(c, spot)), Temp(ParquetAt(c, spot))}
    ensures !c.parquet ==> StagingNames(c, spot) == {Temp(JsonlAt(c, spot))}
  {
  }

  lemma ScanOpens(c: Config, w: World, p: Process, spot: Spot, schemas: seq<GraphSchema>)
    requires w.proc == Some(p) && p.pc.Scan? && InBody(c, w.disk, p, spot, schemas)
    requires p.batch != [] && p.open.None?
    ensures Good(c, Step(c, w))
  {
    hide SchemasFit, ValidConfig, TakenAt, CheckpointAt, DiskAt, Gathered, ItemsOf, NextJsonl, NextParquet, Increasing, Temps, StagingNames;
    ShardSizePositive(c);
    SameRows(c, p, spot, schemas);
    RowsIncrease(c, spot);
    BatchIsAfter(p, RowsAt(c, spot));
    var p' := p.(open := Some([]), pc := if c.parquet then OpenParquet else Scan);
    var disk' := w.disk[Temp(JsonlAt(c, spot)) := Partial];
    assert Step(c, w) == World(disk', Some(p'));
    GatheredFrame(c, p, p', spot, p.processed);
    StagingAreTemps(c, spot);
    DiskWrite(c, w.disk, Temp(JsonlAt(c, spot)), Partial, spot, schemas, {}, {Temp(JsonlAt(c, spot))});
    assert OpenTo(c, p', RowsAt(c, spot), CutAt(c, spot)) by { NoItems(c, RowsAt(c, spot), CutAt(c, spot)); }
    assert MayScan(c, p', spot);
    assert InBody(c, disk', p', spot, schemas);
    BodyIsGood(c, World(disk', Some(p')), p', spot, schemas);
  }

  lemma NoItems(c: Config, rows: seq<Row>, pos: nat)
    requires pos <= |rows|
    ensures ItemsOf(c, rows[pos..pos]) == [] && CountAll(c, rows[pos..pos]) == ZERO
  {
  }

  /** A leftover that is not among the files being written was cleaned up or never made. */
  lemma NotThere(c: Config, disk: Disk, spot: Spot, schemas: seq<GraphSchema>, junk: set<FileName>, f: FileName)
    requires ValidSpot(c, spot) && DiskAt(c, disk, spot, schemas, junk) && f in Temps(c, spot) && f !in junk
    ensures f !in disk
  {
    hide ValidSpot, CheckpointAt, Holds, Temps;
    ShardSizeAt(c, spot);
    TempsUncommitted(c, spot, f);
  }

  lemma OpenParquetKeeps(c: Config, w: World, p: Process, spot: Spot, schemas: seq<GraphSchema>)
    requires w.proc == Some(p) && p.pc.OpenParquet? && InBody(c, w.disk, p, spot, schemas)
    ensures Good(c, Step(c, w))
  {
    hide SchemasFit, ValidConfig, TakenAt, CheckpointAt, DiskAt, Gathered, ItemsOf, NextJsonl, NextParquet, Temps, StagingNames, OpenTo, ScannedTo;
    ShardSizePositive(c);
    SameRows(c, p, spot, schemas);
    var p' := p.(pc := Scan);
    var disk' := w.disk[Temp(ParquetAt(c, spot)) := Partial];
    StagingAreTemps(c, spot);
    assert Temp(ParquetAt(c, spot)) !in w.disk by { NotThere(c, w.disk, spot, schemas, {Temp(JsonlAt(c, spot))}, Temp(ParquetAt(c, spot))); }
    assert Step(c, w) == World(disk', Some(p'));
    DiskWrite(c, w.disk, Temp(ParquetAt(c, spot)), Partial, spot, schemas, {Temp(JsonlAt(c, spot))}, StagingNames(c, spot));
    ScanningFrame(c, p, p', spot);
    assert InBody(c, disk', p', spot, schemas);
    BodyIsGood(c, World(disk', Some(p')), p', spot, schemas);
  }

  lemma ScanningFrame(c: Config, p: Process, p': Process, spot: Spot)
    requires Scanning(c, p, spot) && p' == p.(pc := p'.pc)
    ensures Scanning(c, p', spot)
  {
    hide Gathered;
    GatheredFrame(c, p, p', spot, p.processed);
  }

  // ----- Writing a record -----

  lemma PrefixGrows(c: Config, rows: seq<Row>, pos: nat)
    requires pos < |rows|
    ensures KindsOfRows(c, rows[..pos + 1]) == KindsOfRows(c, rows[..pos]) + ScannedKinds(c, rows[pos])
    ensures CountAll(c, rows[..pos + 1]) == CountAll(c, rows[..pos]).Plus(CountsOf(c, rows[pos]))
  {
    hide ScannedKinds, CountsOf;
    assert rows[..pos + 1][..pos] == rows[..pos];
    var all, front := KindsOfRows(c, rows[..pos + 1]), KindsOfRows(c, rows[..pos]);
    forall k | k in all
      ensures k in front || k in ScannedKinds(c, rows[pos])
    {
      var i :| 0 <= i < pos + 1 && k in ScannedKinds(c, rows[..pos + 1][i]);
      if i < pos {
        assert rows[..pos][i] == rows[..pos + 1][i];
      }
    }
    forall k | k in front
      ensures k in all
    {
      var i :| 0 <= i < pos && k in ScannedKinds(c, rows[..pos][i]);
      assert rows[..pos + 1][i] == rows[..pos][i];
    }
    assert rows[..pos + 1][pos] == rows[pos];
  }

  lemma SeenGrows(c: Config, s: GraphSource, n: nat, e: nat)
    requires n <= |s.nodes| && e <= |s.edges|
    ensures n < |s.nodes| && e == 0 ==> Seen(c, s, n + 1, 0) == Seen(c, s, n, 0) + [Observe(ItemOf(c, s.nodes[n]))]
    ensures e < |s.edges| ==> Seen(c, s, n, e + 1) == Seen(c, s, n, e) + [Observe(ItemOf(c, s.edges[e]))]
  {
  }

  /** The process after the handler of `row`, leaving the program point to the caller. */
  function Written(c: Config, p: Process, row: Row, nodes: bool, pc: Pc): Process
    requires p.open.Some? && p.batch != []
  {
    p.(pc := pc,
       open := Some(p.open.value + [ItemOf(c, row)]),
       observed := p.observed + [Observe(ItemOf(c, row))],
       nodeKinds := if nodes then p.nodeKinds + ScannedKinds(c, row) else p.nodeKinds,
       edgeKinds := if nodes then p.edgeKinds else p.edgeKinds + ScannedKinds(c, row),
       nodeCounts := if nodes then p.nodeCounts.Plus(CountsOf(c, row)) else p.nodeCounts,
       edgeCounts := if nodes then p.edgeCounts else p.edgeCounts.Plus(CountsOf(c, row)),
       shardCounts := p.shardCounts.Plus(CountsOf(c, row)),
       lastWritten := Some(row.id), lastID := Some(row.id),
       processed := p.processed + 1, accepted := p.accepted + 1, batch := p.batch[1..])
  }

  lemma GatherNode(c: Config, p: Process, p': Process, s: GraphSource, n: nat)
    requires Gathered(c, p, s, n, 0) && n < |s.nodes| && n < Metrics.MAX_ORDINALS && p.open.Some? && p.batch != []
    requires p' == Written(c, p, s.nodes[n], true, p'.pc) && c.line(ItemOf(c, s.nodes[n])).Some?
    ensures Gathered(c, p', s, n + 1, 0)
  {
    hide KindsOfRows, CountAll, Seen, ScannedKinds, Counts.Plus, KindsRecorded;
    PrefixGrows(c, s.nodes, n);
    SeenGrows(c, s, n, 0);
  }

  /** Scanning the next relationship records its kind; the empty one may stay lost only if it is another. */
  lemma RecordKind(c: Config, s: GraphSource, e: nat, kinds: set<Kind>)
    requires e < |s.edges| && KindsRecorded(c, s, e, kinds)
    ensures KindsRecorded(c, s, e + 1, kinds + ScannedKinds(c, s.edges[e]))
  {
    hide KindsOfRows, ScannedKinds, RowsFit;
    PrefixGrows(c, s.edges, e);
    var all, more := KindsOfRows(c, s.edges[..e]), ScannedKinds(c, s.edges[e]);
    if kinds == all {
    } else if "" in more {
      assert kinds + more == all + more;
    } else {
      var j: nat :| LostAt(c, s, j, e);
      assert LostAt(c, s, j, e + 1);
      assert kinds + more == all + more - {""};
    }
  }

  lemma GatherEdge(c: Config, p: Process, p': Process, s: GraphSource, n: nat, e: nat)
    requires Gathered(c, p, s, n, e) && e < |s.edges| && p.open.Some? && p.batch != []
    requires p' == Written(c, p, s.edges[e], false, p'.pc) && c.line(ItemOf(c, s.edges[e])).Some?
    ensures Gathered(c, p', s, n, e + 1)
  {
    hide KindsOfRows, CountAll, Seen, ScannedKinds, Counts.Plus, KindsRecorded;
    RecordKind(c, s, e, p.edgeKinds);
    PrefixGrows(c, s.edges, e);
    SeenGrows(c, s, n, e);
  }

  /** The metrics have room for row `pos`. */
  predicate HasRoom(spot: Spot, pos: nat) {
    spot.Within? && spot.phase == Nodes ==> pos < Metrics.MAX_ORDINALS
  }

  lemma GatherRow(c: Config, p: Process, p': Process, spot: Spot, pos: nat)
    requires GatheredTo(c, p, spot, pos) && pos < |RowsAt(c, spot)| && p.open.Some? && p.batch != []
    requires p' == Written(c, p, RowsAt(c, spot)[pos], spot.phase == Nodes, p'.pc)
    requires HasRoom(spot, pos) && c.line(ItemOf(c, RowsAt(c, spot)[pos])).Some?
    ensures GatheredTo(c, p', spot, pos + 1)
  {
    hide Gathered, Written;
    var s := c.sources[spot.g];
    if spot.phase == Nodes {
      GatherNode(c, p, p', s, pos);
    } else {
      GatherEdge(c, p, p', s, |s.nodes|, pos);
    }
  }

  lemma RowObservable(c: Config, p: Process, spot: Spot, pos: nat)
    requires ValidSpot(c, spot) && spot.Within? && GatheredTo(c, p, spot, pos) && pos < |RowsAt(c, spot)|
    ensures Observable(p.observed, Observe(ItemOf(c, RowsAt(c, spot)[pos]))) <==> HasRoom(spot, pos)
  {
    hide Observable, Seen, KindsOfRows, CountAll, ValidConfig, Taken, KindsRecorded, TakenAt;
    var s := c.sources[spot.g];
    SourceValid(c, spot.g);
    if spot.phase == Nodes {
      NextNodeObservable(c, s, pos);
    } else {
      NextEdgeObservable(c, s, pos);
    }
  }

  /** A node to be scanned is a node, and a new one. */
  lemma RowUnseen(c: Config, p: Process, spot: Spot, pos: nat)
    requires ValidSpot(c, spot) && spot.Within? && GatheredTo(c, p, spot, pos) && pos < |RowsAt(c, spot)|
    ensures var item := ItemOf(c, RowsAt(c, spot)[pos]); spot.phase == Nodes ==> item.NodeItem? && !SeenNode(p.observed, item.id)
  {
    hide Seen, KindsOfRows, CountAll, ValidConfig, Taken, KindsRecorded, TakenAt, Increasing;
    SourceValid(c, spot.g);
    if spot.phase == Nodes {
      NextNodeUnseen(c, c.sources[spot.g], pos);
    }
  }

  lemma OpenGrows(c: Config, p: Process, p': Process, rows: seq<Row>, cut: nat)
    requires OpenTo(c, p, rows, cut) && p.open.Some? && p.batch != [] && p.processed < |rows|
    requires exists nodes :: p' == Written(c, p, rows[p.processed], nodes, p'.pc)
    ensures OpenTo(c, p', rows, cut)
  {
    hide ScannedKinds, Counts.Plus;
    var shard := rows[cut..p.processed];
    assert rows[cut..p.processed + 1] == shard + [rows[p.processed]];
    assert (shard + [rows[p.processed]])[..|shard|] == shard;
  }

  lemma ScannedGrows(c: Config, p: Process, p': Process, rows: seq<Row>)
    requires ScannedTo(p, rows) && p.open.Some? && p.batch != []
    requires exists nodes :: p' == Written(c, p, rows[p.processed], nodes, p'.pc)
    ensures ScannedTo(p', rows)
  {
    assert p.batch[1..] == rows[p.processed + 1..p.processed + |p.batch|];
  }

  lemma WriteStep(c: Config, w: World, p: Process, spot: Spot, schemas: seq<GraphSchema>) returns (p': Process)
    requires w.proc == Some(p) && p.pc.Scan? && InBody(c, w.disk, p, spot, schemas)
    requires p.batch != [] && p.open.Some?
    ensures p.processed < |RowsAt(c, spot)|
    ensures p' == Written(c, p, RowsAt(c, spot)[p.processed], spot.phase == Nodes, if |p.open.value| + 1 >= c.shardSize then CloseJsonl else Scan)
    ensures var item := ItemOf(c, RowsAt(c, spot)[p.processed]);
            Step(c, w) == if !HasRoom(spot, p.processed) then Fail(w, p, TooManyNodes) else if c.line(item).None? then Fail(w, p, Unencodable) else Go(w, p')
  {
    hide SchemasFit, ValidConfig, TakenAt, CheckpointAt, DiskAt, Gathered, ItemsOf, NextJsonl, NextParquet, Increasing, Observable, ScannedKinds, Counts.Plus, ItemOf, Observe;
    ShardSizePositive(c);
    SameRows(c, p, spot, schemas);
    RowsIncrease(c, spot);
    BatchIsAfter(p, RowsAt(c, spot));
    RowObservable(c, p, spot, p.processed);
    RowUnseen(c, p, spot, p.processed);
    p' := Written(c, p, RowsAt(c, spot)[p.processed], spot.phase == Nodes, if |p.open.value| + 1 >= c.shardSize then CloseJsonl else Scan);
  }

  lemma ScanWrites(c: Config, w: World, p: Process, spot: Spot, schemas: seq<GraphSchema>)
    requires w.proc == Some(p) && p.pc.Scan? && InBody(c, w.disk, p, spot, schemas)
    requires p.batch != [] && p.open.Some?
    ensures Good(c, Step(c, w))
  {
    hide SchemasFit, ValidConfig, CheckpointAt, DiskAt, Gathered, ItemsOf, ScannedKinds, Counts.Plus, ItemOf, Observe, Step;
    ShardSizePositive(c);
    var p' := WriteStep(c, w, p, spot, schemas);
    if HasRoom(spot, p.processed) && c.line(ItemOf(c, RowsAt(c, spot)[p.processed])).Some? {
      var rows, cut := RowsAt(c, spot), CutAt(c, spot);
      GatherRow(c, p, p', spot, p.processed);
      OpenGrows(c, p, p', rows, cut);
      ScannedGrows(c, p, p', rows);
      assert |p'.open.value| == p'.processed - cut by { ItemsLength(c, rows[cut..p'.processed]); }
      StaysGood(c, w, p, p', spot, schemas);
    } else {
      RowRefused(c, w, p, spot, schemas, if HasRoom(spot, p.processed) then Unencodable else TooManyNodes);
    }
  }

  /** A record the metrics have no room for, or that cannot be encoded, ends the process and leaves a disk to resume from. */
  lemma RowRefused(c: Config, w: World, p: Process, spot: Spot, schemas: seq<GraphSchema>, cause: Failure)
    requires p.pc.Scan? && InBody(c, w.disk, p, spot, schemas) && spot.Within? && p.processed < |RowsAt(c, spot)|
    requires (cause == TooManyNodes && !HasRoom(spot, p.processed)) || (cause == Unencodable && c.line(ItemOf(c, RowsAt(c, spot)[p.processed])).None?)
    ensures Good(c, Fail(w, p, cause))
  {
    assert Blames(c, cause) by {
      var s := c.sources[spot.g];
      assert cause == TooManyNodes ==> |s.nodes| > Metrics.MAX_ORDINALS;
      assert cause == Unencodable ==> !RowsEncode(c, s.nodes, |s.nodes|) || !RowsEncode(c, s.edges, |s.edges|);
    }
    hide SchemasFit, ValidSpot, CheckpointAt, BodyAt, DiskAt, Idle, Blames, StagedAt, JunkAt, Temps;
    ResumableIsIdle(c, w.disk, spot, schemas, JunkAt(c, p, spot, p.pc));
    assert Refused(c, w.disk, p.(pc := Failed(cause)));
  }

  lemma ScanKeeps(c: Config, w: World, p: Process, spot: Spot, schemas: seq<GraphSchema>)
    requires w.proc == Some(p) && p.pc.Scan? && InBody(c, w.disk, p, spot, schemas)
    ensures Good(c, Step(c, w))
  {
    hide SchemasFit, ValidSpot, CheckpointAt, DiskAt, Step, Good, ScannedTo, OpenTo, GatheredTo;
    if p.batch == [] {
      if p.processed >= |RowsAt(c, spot)| {
        ScanEnds(c, w, p, spot, schemas);
      } else {
        ScanFetches(c, w, p, spot, schemas);
      }
    } else if p.open.None? {
      ScanOpens(c, w, p, spot, schemas);
    } else {
      ScanWrites(c, w, p, spot, schemas);
    }
  }
}
