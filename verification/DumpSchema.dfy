/**
 * The schema is the one part of the manifest a crash can change: a scan records the empty relationship kind, a restore does
 * not. Exactly the sources where that kind can be lost have a manifest that depends on interruptions.
 */
module DumpSchema {
  import opened Optional
  import opened DumpModel
  import opened DumpProtocol
  import opened DumpShards
  import opened DumpSpots
  import opened DumpDisk
  import opened DumpInvariant
  import opened DumpDiskSteps
  import opened DumpSteps
  import opened DumpScanSteps
  import opened DumpCommitSteps
  import opened DumpRuns
  import opened DumpTheorems
  import opened DumpProgress
  import opened DumpJourneys

  // ----- After a resume past its last occurrence, the empty kind is gone for good -----

  /** The process resumes after the relationships before `cut`, or has resumed there and not recorded the empty kind since. */
  ghost predicate Pending(c: Config, p: Process, g: nat, cut: nat) {
    && g < |c.sources|
    && |p.ck.manifest.graphs| == |p.ck.manifest.schemas| == g && p.ck.current.Some?
    && var cur := p.ck.current.value;
       && cur.index == g && cur.phase == Edges && cur.snapshot.Some?
       && (Resuming(p.pc) || p.pc.EnterPhase? ==> PhaseTotal(cur.files, Edges) == cut)
       && (Resuming(p.pc) || ("" !in p.edgeKinds && Onward(p, cut)))
  }

  predicate Resuming(pc: Pc) {
    pc.Cleaning? || pc.CheckFiles? || pc.GraphStart? || pc.CountEntities? || pc.Restore?
  }

  predicate Onward(p: Process, cut: nat) {
    || p.pc.EnterPhase? || p.pc.PhaseEnd? || p.pc.GraphEnd?
    || ((p.pc.Scan? || p.pc.OpenParquet? || Publishing(p.pc) || (p.pc.Persist? && p.pc.next.Scan?)) && p.processed >= cut)
  }

  ghost predicate Recorded(p: Process, g: nat) {
    |p.ck.manifest.schemas| > g && "" !in p.ck.manifest.schemas[g].edgeKinds
  }

  /** No relationship from `cut` on has the empty string for its kind. */
  ghost predicate NoneFrom(c: Config, g: nat, cut: nat)
    requires g < |c.sources|
  {
    forall i :: cut <= i < |c.sources[g].edges| ==> "" !in ScannedKinds(c, c.sources[g].edges[i])
  }

  lemma RestoredKindsNonEmpty(items: seq<Item>)
    ensures "" !in KindsOfItems(items)
  {
  }

  lemma RecordedKeeps(c: Config, w: World, g: nat)
    requires Succeeds(c, w) && Recorded(w.proc.value, g)
    ensures Recorded(Step(c, w).proc.value, g)
  {
    hide ShardsLeft, FilesAccepted, Restorable, ManifestAccepted, PhaseTotal, Query, Observable, NextParquet, NextJsonl, PhaseFiles, CountsOf, Counts.Plus, ScannedKinds, KindsOfItems, Records, ItemOf;
  }

  lemma PendingResumes(c: Config, w: World, g: nat, cut: nat)
    requires Succeeds(c, w) && Pending(c, w.proc.value, g, cut) && Resuming(w.proc.value.pc)
    ensures Pending(c, Step(c, w).proc.value, g, cut)
  {
    hide ShardsLeft, FilesAccepted, Restorable, ManifestAccepted, PhaseTotal, PhaseFiles, KindsOfItems, Records, ObserveAll, FileCounts, AllShort, KnownTemps;
    var p := w.proc.value;
    if p.pc.Restore? {
      RestoredKindsNonEmpty(Records(PhaseFiles(p.ck.current.value.files, Edges)));
    }
  }

  lemma PendingScans(c: Config, w: World, g: nat, cut: nat)
    requires Succeeds(c, w) && Facts(c, w.proc.value) && Pending(c, w.proc.value, g, cut) && NoneFrom(c, g, cut)
    requires w.proc.value.pc.Scan?
    ensures Pending(c, Step(c, w).proc.value, g, cut)
  {
    hide ShardsLeft, PhaseTotal, Query, Observable, NextParquet, NextJsonl, PhaseFiles, CountsOf, Counts.Plus, ScannedKinds, ItemOf, KindsOfRows;
  }

  lemma PendingTurns(c: Config, w: World, g: nat, cut: nat)
    requires Succeeds(c, w) && Pending(c, w.proc.value, g, cut)
    requires w.proc.value.pc.EnterPhase? || w.proc.value.pc.OpenParquet? || w.proc.value.pc.PhaseEnd? || w.proc.value.pc.GraphEnd?
    ensures Pending(c, Step(c, w).proc.value, g, cut) || Recorded(Step(c, w).proc.value, g)
  {
    hide ShardsLeft, PhaseTotal, NextParquet, PhaseFiles, Counts.Plus, CurrentRows;
  }

  lemma PendingPublishes(c: Config, w: World, g: nat, cut: nat)
    requires Succeeds(c, w) && Pending(c, w.proc.value, g, cut) && (Publishing(w.proc.value.pc) || w.proc.value.pc.Persist?)
    ensures Pending(c, Step(c, w).proc.value, g, cut)
  {
    hide ShardsLeft, PhaseTotal, NextParquet, NextJsonl, PhaseFiles, Rename, CurrentRows;
  }

  lemma PendingKeeps(c: Config, w: World, g: nat, cut: nat)
    requires Succeeds(c, w) && Facts(c, w.proc.value) && Pending(c, w.proc.value, g, cut) && NoneFrom(c, g, cut)
    ensures Pending(c, Step(c, w).proc.value, g, cut) || Recorded(Step(c, w).proc.value, g)
  {
    hide Bounded, Step, Facts, PhaseTotal, NoneFrom;
    var pc := w.proc.value.pc;
    if Resuming(pc) {
      PendingResumes(c, w, g, cut);
    } else if Publishing(pc) || pc.Persist? {
      PendingPublishes(c, w, g, cut);
    } else if pc.Scan? {
      PendingScans(c, w, g, cut);
    } else {
      PendingTurns(c, w, g, cut);
    }
  }

  lemma {:induction false} LosesKind(c: Config, w: World, g: nat, cut: nat) returns (n: nat)
    requires Dumpable(c) && Good(c, w) && w.proc.Some? && Calm(c, w.proc.value) && !w.proc.value.pc.Failed?
    requires g < |c.sources| && NoneFrom(c, g, cut) && (Pending(c, w.proc.value, g, cut) || Recorded(w.proc.value, g))
    ensures Good(c, Iterate(c, w, n)) && Iterate(c, w, n).proc.Some? && Iterate(c, w, n).proc.value.pc.Done?
    ensures Recorded(Iterate(c, w, n).proc.value, g)
    decreases WorkOf(c, w).graphs, WorkOf(c, w).stage, WorkOf(c, w).shards, WorkOf(c, w).point, WorkOf(c, w).rows, WorkOf(c, w).inner
  {
    hide Good, Step, WorkLeft, Bounded, PhaseTotal, Dumpable, Calm, NoneFrom, Facts;
    if w.proc.value.pc.Done? {
      n := 0;
    } else {
      CalmGoesOn(c, w);
      StepReduces(c, w);
      if Recorded(w.proc.value, g) {
        RecordedKeeps(c, w, g);
      } else {
        AllFacts(c, w);
        PendingKeeps(c, w, g, cut);
      }
      n := LosesKind(c, Step(c, w), g, cut);
      n := n + 1;
    }
  }

  // ----- The interrupted run -----

  /** The manifest on a finished disk is the one in memory. */
  lemma DoneManifest(c: Config, w: World)
    requires Good(c, w) && w.proc.Some? && w.proc.value.pc.Done?
    ensures HasContent(w.disk, Final(ManifestFile), ManifestContent(w.proc.value.ck.manifest))
  {
    hide ManifestAt, ValidConfig, DiskAt, SchemasFit, Holds, Only, Idle, MayScan, ReadyToPublish, PhaseDone, GatheredTo, TakenAt;
    var spot, schemas :| RunningAt(c, w.disk, w.proc.value, spot, schemas);
    assert InEnd(c, w.disk, w.proc.value, schemas);
  }

  /** The shard after which the kind is lost. */
  lemma LosingShard(c: Config, g: nat) returns (j: nat)
    requires ValidConfig(c) && g < |c.sources| && KindCanBeLost(c, g)
    ensures Target(c, g, Edges, j) && LostAt(c, c.sources[g], j, |c.sources[g].edges|)
  {
    var s := c.sources[g];
    j :| LostAt(c, s, j, |s.edges|);
    CutFull(|s.edges|, c.shardSize, j);
    if j > Shards(c, s, Edges) {
      j := Shards(c, s, Edges);
      CutFull(|s.edges|, c.shardSize, j);
    }
    var i :| 0 <= i < |s.edges| && "" in ScannedKinds(c, s.edges[i]);
    assert i < Cut(|s.edges|, c.shardSize, j);
  }

  /** A process that resumes after that shard can read back what is committed and is on the way to losing the kind. */
  lemma ResumesPending(c: Config, g: nat, j: nat, ck: Checkpoint)
    requires ValidSpot(c, Within(g, Edges, j)) && ck.current == Some(CurrentAt(c, g, Edges, j)) && |ck.manifest.graphs| == |ck.manifest.schemas| == g
    requires LostAt(c, c.sources[g], j, |c.sources[g].edges|)
    ensures var p := Boot(Cleaning(KnownTemps(ck)), ck);
            Pending(c, p, g, Cut(|c.sources[g].edges|, c.shardSize, j)) && Calm(c, p)
  {
    var spot := Within(g, Edges, j);
    assert CutAt(c, spot) == EdgesAt(c, spot) == Cut(|c.sources[g].edges|, c.shardSize, j) && NodesAt(c, spot) == |c.sources[g].nodes|;
    hide ValidConfig, CommittedAt, CurrentAt, Records, PhaseTotal, KnownTemps, RowsFit, AllShort, TakenAt, CutAt, NodesAt, EdgesAt, Cut;
    ShardSizePositive(c);
    CurrentFields(c, spot);
    TotalAt(c, spot);
    ReadsBackIff(c, spot);
  }

  /** One crash at the right moment makes the finished manifest differ from that of an uninterrupted dump. */
  lemma CrashLosesKind(c: Config, g: nat) returns (worlds: seq<World>, w: World)
    requires ValidConfig(c) && Dumpable(c) && g < |c.sources| && KindCanBeLost(c, g)
    ensures EndsIn(c, worlds, w) && w.proc.Some? && w.proc.value.pc.Done?
    ensures !HasContent(w.disk, Final(ManifestFile), ManifestContent(ExpectedManifest(c)))
  {
    hide Good, ValidConfig, Dumpable, AtShard, Target, EndsIn, Step, Pending, Calm, KindsOfRows, ExpectedGraph, ExpectedMetrics, Totals, KnownTemps, CurrentAt, ValidSpot, RowsFit, CanLose, Cut;
    ShardSizePositive(c);
    var j := LosingShard(c, g);
    var worlds1, w1 := RunToShard(c, g, Edges, j);
    ShardDurable(c, w1, g, Edges, j);
    assert |w1.proc.value.ck.manifest.graphs| == g by { ShardGraphs(w1.proc.value, g, Edges, j); }
    var worlds2, w2 := CrashAndResume(c, worlds1, w1);
    ResumesPending(c, g, j, w1.proc.value.ck);
    var cut := Cut(|c.sources[g].edges|, c.shardSize, j);
    assert NoneFrom(c, g, cut);
    var n := LosesKind(c, w2, g, cut);
    w := Iterate(c, w2, n);
    worlds := ExtendBy(c, worlds2, w2, n);
    DoneManifest(c, w);
    assert ExpectedManifest(c).schemas[g].edgeKinds == KindsOfRows(c, c.sources[g].edges);
  }

  lemma ShardGraphs(p: Process, g: nat, phase: Phase, j: nat)
    requires AtShard(p, g, phase, j)
    ensures |p.ck.manifest.graphs| == g
  {
  }

  /**
   * Every finished run has the expected manifest if and only if the empty relationship kind cannot be lost, or no run finishes at all.
   */
  lemma ManifestDeterminedIff(c: Config)
    requires ValidConfig(c)
    ensures Determined(c) || !Dumpable(c) <==>
            forall worlds, w :: EndsIn(c, worlds, w) && w.proc.Some? && w.proc.value.pc.Done? ==>
                                  HasContent(w.disk, Final(ManifestFile), ManifestContent(ExpectedManifest(c)))
  {
    hide ValidConfig, KindCanBeLost, ExpectedManifest, Run, HasContent, Dumpable, Blames;
    ShardSizePositive(c);
    if !Dumpable(c) {
      forall worlds, w | EndsIn(c, worlds, w) && w.proc.Some?
        ensures !w.proc.value.pc.Done?
      {
        RunNonEmpty(c, worlds);
        NeverFails(c, worlds, |worlds| - 1);
      }
    } else if Determined(c) {
      forall worlds, w | EndsIn(c, worlds, w) && w.proc.Some? && w.proc.value.pc.Done?
        ensures HasContent(w.disk, Final(ManifestFile), ManifestContent(ExpectedManifest(c)))
      {
        assert |worlds| > 0 by { RunNonEmpty(c, worlds); }
        CrashesLeaveNoTrace(c, worlds, worlds, |worlds| - 1, |worlds| - 1);
      }
    } else {
      var g :| 0 <= g < |c.sources| && KindCanBeLost(c, g);
      var worlds, w := CrashLosesKind(c, g);
    }
  }

  // ----- The uninterrupted run -----

  /** Facts of a good process, by program point. */
  ghost predicate Facts(c: Config, p: Process) {
    && (p.pc.Scan? ==> p.processed <= |CurrentRows(c, p)|)
    && (p.pc.Scan? && p.batch != [] ==> p.processed < |CurrentRows(c, p)| && p.batch[0] == CurrentRows(c, p)[p.processed])
    && (InGraph(p.pc) ==> p.ck.current.Some? && p.ck.current.value.index < |c.sources|)
    && (p.pc.PhaseEnd? && p.ck.current.value.phase == Nodes ==> PhaseTotal(p.ck.current.value.files, Edges) == 0)
    && (p.pc.GraphEnd? ==>
          var cur := p.ck.current.value;
          && cur.phase == Edges && cur.index == |p.ck.manifest.graphs| && cur.name == c.sources[cur.index].name
          && p.nodeKinds == KindsOfRows(c, c.sources[cur.index].nodes))
  }

  lemma NoEdgesYet(c: Config, s: GraphSource, j: nat)
    requires 0 < c.shardSize
    ensures PhaseTotal(CommittedAt(c, s, Nodes, j), Edges) == 0
  {
    CommittedTotals(c, s, j, 0);
  }

  lemma BodyFacts(c: Config, disk: Disk, p: Process, spot: Spot, schemas: seq<GraphSchema>)
    requires InBody(c, disk, p, spot, schemas)
    ensures Facts(c, p)
  {
    hide DiskAt, StagedAt, ValidConfig, SchemasFit, CurrentAt, CommittedAt, KindsOfRows, Seen, ItemsOf, CountAll, IdentityOf, ExpectedGraph, ExpectedMetrics, Totals, PhaseTotal, NextJsonl, NextParquet;
    ShardSizePositive(c);
    if InGraph(p.pc) {
      SameRows(c, p, spot, schemas);
      CurrentFields(c, spot);
      if spot.phase == Nodes {
        NoEdgesYet(c, c.sources[spot.g], spot.j);
      }
      if p.pc.GraphEnd? {
        assert c.sources[spot.g].nodes[..|c.sources[spot.g].nodes|] == c.sources[spot.g].nodes;
      }
    }
  }

  lemma AllFacts(c: Config, w: World)
    requires Good(c, w) && w.proc.Some? && !w.proc.value.pc.Failed?
    ensures Facts(c, w.proc.value)
  {
    hide InBody, CheckpointAt, DiskAt, BodyAt, Complete, Idle, Holds, Only, SchemasFit, PhaseTotal, CurrentRows, KindsOfRows;
    var p := w.proc.value;
    var spot, schemas :| RunningAt(c, w.disk, p, spot, schemas);
    if InBody(c, w.disk, p, spot, schemas) {
      BodyFacts(c, w.disk, p, spot, schemas);
    } else if InCounting(c, w.disk, p, spot, schemas) {
      CountingFacts(c, w.disk, p, spot, schemas);
    }
  }

  lemma CountingFacts(c: Config, disk: Disk, p: Process, spot: Spot, schemas: seq<GraphSchema>)
    requires InCounting(c, disk, p, spot, schemas)
    ensures p.ck.current.Some? && p.ck.current.value.index < |c.sources|
  {
    hide DiskAt, SchemasFit, CommittedAt, IdentityOf, ManifestAt;
  }

  predicate Later(pc: Pc) {
    || (InGraph(pc) && !pc.CountEntities? && !pc.Restore?)
    || (pc.Persist? && (pc.next.EnterPhase? || pc.next.Scan?))
  }

  function EdgesSeen(p: Process, total: nat): nat {
    if p.pc.EnterPhase? || (p.pc.Persist? && p.pc.next.EnterPhase?) then 0
    else if p.pc.PhaseEnd? || p.pc.GraphEnd? || p.processed > total then total
    else p.processed
  }

  /** The relationship kinds are exactly those of the rows scanned so far. */
  ghost predicate ExactKinds(c: Config, p: Process) {
    && p.ck.current.Some? && p.ck.current.value.index < |c.sources|
    && var cur, edges := p.ck.current.value, c.sources[p.ck.current.value.index].edges;
       if cur.phase == Nodes then p.edgeKinds == {}
       else
         && p.edgeKinds == KindsOfRows(c, edges[..EdgesSeen(p, |edges|)])
         && (p.pc.EnterPhase? || (p.pc.Persist? && p.pc.next.EnterPhase?) ==> PhaseTotal(cur.files, Edges) == 0)
  }

  ghost predicate ExactSchemas(c: Config, m: Manifest) {
    && |m.schemas| == |m.graphs| <= |c.sources|
    && forall h :: 0 <= h < |m.schemas| ==> m.schemas[h] == ExpectedSchema(c, c.sources[h])
  }

  /** A process that never resumed. */
  ghost predicate Straight(c: Config, p: Process) {
    && ExactSchemas(c, p.ck.manifest)
    && !p.pc.Cleaning? && !p.pc.CheckFiles?
    && (p.pc.GraphStart? || (p.pc.Persist? && p.pc.next.GraphStart?) ==> p.ck.current.None?)
    && (p.pc.CountEntities? ==> p.ck.current.Some? && p.ck.current.value.snapshot.None? && p.ck.current.value.files == [] && p.ck.current.value.phase == Nodes)
    && (p.pc.Restore? || (p.pc.Persist? && p.pc.next.Restore?) ==>
          p.ck.current.Some? && p.ck.current.value.files == [] && p.ck.current.value.phase == Nodes && p.ck.current.value.index < |c.sources|)
    && (Later(p.pc) ==> ExactKinds(c, p))
  }

  lemma StraightOutside(c: Config, w: World)
    requires Succeeds(c, w) && Straight(c, w.proc.value) && Facts(c, w.proc.value) && !Later(w.proc.value.pc)
    ensures Straight(c, Step(c, w).proc.value)
  {
    hide ShardsLeft, FilesAccepted, Restorable, ManifestAccepted, PhaseTotal, NextParquet, NextJsonl, Records, ObserveAll, FileCounts, ExactSchemas, CurrentRows, KindsOfRows;
    var p := w.proc.value;
    if p.pc.Restore? {
      assert KindsOfItems(Records(PhaseFiles([], Edges))) == {} by { NoKinds(); }
    }
  }

  lemma NoKinds()
    ensures KindsOfItems(Records(PhaseFiles([], Edges))) == {}
  {
  }

  lemma StraightScan(c: Config, w: World)
    requires Succeeds(c, w) && Straight(c, w.proc.value) && Facts(c, w.proc.value) && Later(w.proc.value.pc) && !Publishing(w.proc.value.pc)
    requires !w.proc.value.pc.Persist? && !w.proc.value.pc.GraphEnd?
    ensures Straight(c, Step(c, w).proc.value)
  {
    hide ShardsLeft, PhaseTotal, NextParquet, NextJsonl, ExactSchemas, KindsOfRows, Query, Observable, CountsOf, Counts.Plus, ScannedKinds, ItemOf;
    var p := w.proc.value;
    var edges := c.sources[p.ck.current.value.index].edges;
    if p.pc.Scan? && p.batch != [] && p.ck.current.value.phase == Edges {
      PrefixGrows(c, edges, p.processed);
    }
    if p.pc.PhaseEnd? {
      assert KindsOfRows(c, edges[..0]) == {} by { NoRowKinds(c, edges); }
    }
  }

  lemma NoRowKinds(c: Config, rows: seq<Row>)
    ensures KindsOfRows(c, rows[..0]) == {}
  {
  }

  lemma StraightPublish(c: Config, w: World)
    requires Succeeds(c, w) && Straight(c, w.proc.value) && (Publishing(w.proc.value.pc) || w.proc.value.pc.Persist?)
    ensures Straight(c, Step(c, w).proc.value)
  {
    hide ShardsLeft, PhaseTotal, NextParquet, NextJsonl, ExactSchemas, KindsOfRows, CurrentRows;
  }

  lemma StraightGraphEnd(c: Config, w: World)
    requires Succeeds(c, w) && Straight(c, w.proc.value) && Facts(c, w.proc.value) && w.proc.value.pc.GraphEnd?
    ensures Straight(c, Step(c, w).proc.value)
  {
    hide ShardsLeft, PhaseTotal, KindsOfRows, Counts.Plus;
    var p := w.proc.value;
    var edges := c.sources[p.ck.current.value.index].edges;
    assert edges[..|edges|] == edges;
  }

  lemma StraightKeeps(c: Config, w: World)
    requires Dumpable(c) && Good(c, w) && w.proc.Some? && Calm(c, w.proc.value) && Straight(c, w.proc.value) && !Over(w)
    ensures Good(c, Step(c, w)) && Step(c, w).proc.Some? && Straight(c, Step(c, w).proc.value)
  {
    hide Good, Straight, Facts, Step, Bounded, Dumpable, Calm;
    CalmGoesOn(c, w);
    AllFacts(c, w);
    StepGoesOn(c, w);
    var pc := w.proc.value.pc;
    if pc.GraphEnd? {
      StraightGraphEnd(c, w);
    } else if Publishing(pc) || pc.Persist? {
      StraightPublish(c, w);
    } else if Later(pc) {
      StraightScan(c, w);
    } else {
      StraightOutside(c, w);
    }
  }

  lemma {:induction false} StraightFinishes(c: Config, w: World) returns (n: nat)
    requires Dumpable(c) && Good(c, w) && w.proc.Some? && Calm(c, w.proc.value) && Straight(c, w.proc.value) && !w.proc.value.pc.Failed?
    ensures var w' := Iterate(c, w, n); Good(c, w') && w'.proc.Some? && w'.proc.value.pc.Done? && Straight(c, w'.proc.value)
    decreases WorkOf(c, w).graphs, WorkOf(c, w).stage, WorkOf(c, w).shards, WorkOf(c, w).point, WorkOf(c, w).rows, WorkOf(c, w).inner
  {
    hide Good, Step, WorkLeft, Straight, Bounded, Dumpable, Calm;
    if w.proc.value.pc.Done? {
      n := 0;
    } else {
      CalmGoesOn(c, w);
      StepReduces(c, w);
      StraightKeeps(c, w);
      n := StraightFinishes(c, Step(c, w));
      n := n + 1;
    }
  }

  lemma StraightToExpected(c: Config) returns (n: nat)
    requires ValidConfig(c) && Dumpable(c)
    ensures var w := Iterate(c, Start(c, World(map[], None)), n);
            && w.proc.Some? && w.proc.value.pc.Done?
            && HasContent(w.disk, Final(ManifestFile), ManifestContent(ExpectedManifest(c)))
  {
    hide Good, ValidConfig, Step, IdentityOf, Dumpable;
    ShardSizePositive(c);
    var w0 := World(map[], None);
    StartKeeps(c, w0);
    n := StraightFinishes(c, Start(c, w0));
    var w := Iterate(c, Start(c, w0), n);
    DoneManifest(c, w);
    DoneExact(c, w);
  }

  /**
   * An uninterrupted dump finishes, and its manifest is the expected one, empty kinds and long lines included; it fails when a graph
   * has too many nodes or a record cannot be encoded.
   */
  lemma UninterruptedIsExpected(c: Config) returns (n: nat)
    requires ValidConfig(c)
    ensures var w := Iterate(c, Start(c, World(map[], None)), n);
            && w.proc.Some? && (if Dumpable(c) then w.proc.value.pc.Done? else w.proc.value.pc.Failed?)
            && (Dumpable(c) ==> HasContent(w.disk, Final(ManifestFile), ManifestContent(ExpectedManifest(c))))
  {
    hide Good, ValidConfig, Step, Dumpable, HasContent, Calm;
    ShardSizePositive(c);
    if Dumpable(c) {
      n := StraightToExpected(c);
    } else {
      StartKeeps(c, World(map[], None));
      n := Finishes(c, Start(c, World(map[], None)));
    }
  }

  lemma DoneExact(c: Config, w: World)
    requires ValidConfig(c) && Good(c, w) && w.proc.Some? && w.proc.value.pc.Done? && ExactSchemas(c, w.proc.value.ck.manifest)
    ensures w.proc.value.ck.manifest == ExpectedManifest(c)
  {
    hide ValidConfig, DiskAt, SchemaFits, Holds, Only, Idle, MayScan, ReadyToPublish, PhaseDone, GatheredTo, ExpectedGraph, ExpectedMetrics, Totals, ExpectedSchema, Complete, IdentityOf;
    ShardSizePositive(c);
    var p := w.proc.value;
    var spot, schemas :| RunningAt(c, w.disk, p, spot, schemas);
    assert InEnd(c, w.disk, p, schemas);
    var m, expected := p.ck.manifest, ExpectedManifest(c);
    assert m == ManifestAt(c, |c.sources|, schemas);
    assert m.schemas == expected.schemas;
    assert m.graphs == expected.graphs && m.metrics == expected.metrics;
  }
}
