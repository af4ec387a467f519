/** Runs made to order: start, go on until a given shard is committed, crash, resume. */
module DumpJourneys {
  import opened Optional
  import opened DumpModel
  import opened DumpProtocol
  import opened DumpShards
  import opened DumpSpots
  import opened DumpDisk
  import opened DumpInvariant
  import opened DumpDiskSteps
  import opened DumpSteps
  import opened DumpScanSteps
  import opened DumpRuns
  import opened DumpProgress

  // ----- Extending runs -----

  ghost predicate EndsIn(c: Config, worlds: seq<World>, w: World) {
    Run(c, worlds) && worlds[|worlds| - 1] == w
  }

  lemma OneWorld(c: Config)
    ensures EndsIn(c, [World(map[], None)], World(map[], None))
  {
  }

  lemma RunNonEmpty(c: Config, worlds: seq<World>)
    requires Run(c, worlds)
    ensures worlds != []
  {
  }

  lemma Extend(c: Config, worlds: seq<World>, w: World, w': World)
    requires EndsIn(c, worlds, w) && Next(c, w, w')
    ensures EndsIn(c, worlds + [w'], w')
  {
    hide Next;
    var more := worlds + [w'];
    forall i, j | 0 <= i < |more| - 1 && j == i + 1
      ensures Next(c, more[i], more[j])
    {
      if j < |worlds| {
        assert Next(c, worlds[i], worlds[j]);
      }
    }
  }

  lemma {:induction false} ExtendBy(c: Config, worlds: seq<World>, w: World, n: nat) returns (more: seq<World>)
    requires EndsIn(c, worlds, w) && w.proc.Some?
    ensures EndsIn(c, more, Iterate(c, w, n))
    decreases n
  {
    hide EndsIn, Step;
    if n == 0 {
      more := worlds;
    } else {
      StepGoesOn(c, w);
      Extend(c, worlds, w, Step(c, w));
      more := ExtendBy(c, worlds + [Step(c, w)], Step(c, w), n - 1);
    }
  }

  // ----- Going on until a shard is committed -----

  /** `j` shards of a phase of graph `g` are committed, and the checkpoint that says so is durable. */
  ghost predicate AtShard(p: Process, g: nat, phase: Phase, j: nat) {
    && p.pc.Scan? && |p.ck.manifest.graphs| == g && p.ck.current.Some?
    && p.ck.current.value.phase == phase && |PhaseFiles(p.ck.current.value.files, phase)| == j
  }

  /** That shard is still to be committed, or is just being. */
  ghost predicate Towards(p: Process, g: nat, phase: Phase, j: nat) {
    && |p.ck.manifest.graphs| <= g
    && !p.pc.WriteManifest? && !p.pc.RemoveCheckpoint? && !p.pc.Done? && !p.pc.Failed?
    && (|p.ck.manifest.graphs| == g && p.ck.current.Some? ==>
          var cur := p.ck.current.value;
          || (cur.phase == Nodes && phase == Edges)
          || (cur.phase == phase && |PhaseFiles(cur.files, phase)| < j)
          || (cur.phase == phase && |PhaseFiles(cur.files, phase)| == j && p.pc.Persist? && p.pc.next.Scan?))
  }

  ghost predicate Target(c: Config, g: nat, phase: Phase, j: nat) {
    0 < c.shardSize && g < |c.sources| && 0 < j <= Shards(c, c.sources[g], phase)
  }

  /** At the end of a phase all its shards are committed, and none of the next phase. */
  ghost predicate PhaseFacts(c: Config, p: Process) {
    p.pc.PhaseEnd? || p.pc.GraphEnd? ==>
      && 0 < c.shardSize && p.ck.current.Some? && |p.ck.manifest.graphs| < |c.sources|
      && var cur := p.ck.current.value;
         && |PhaseFiles(cur.files, cur.phase)| == Shards(c, c.sources[|p.ck.manifest.graphs|], cur.phase)
         && (cur.phase == Nodes ==> p.pc.PhaseEnd? && |PhaseFiles(cur.files, Edges)| == 0)
  }

  lemma NoEdgeFilesYet(c: Config, s: GraphSource, j: nat)
    requires 0 < c.shardSize
    ensures |PhaseFiles(CommittedAt(c, s, Nodes, j), Edges)| == 0
  {
    PhaseFilesOf(c, s, j, 0);
  }

  lemma BodyPhaseFacts(c: Config, disk: Disk, p: Process, spot: Spot, schemas: seq<GraphSchema>)
    requires InBody(c, disk, p, spot, schemas)
    ensures PhaseFacts(c, p)
  {
    hide DiskAt, StagedAt, ValidConfig, SchemasFit, CurrentAt, CommittedAt, GatheredTo, IdentityOf, ExpectedGraph, ExpectedMetrics, Totals, PhaseFiles, TakenAt, NextJsonl, NextParquet, MayScan, ReadyToPublish;
    ShardSizePositive(c);
    if p.pc.PhaseEnd? || p.pc.GraphEnd? {
      CurrentFields(c, spot);
      NextNames(c, spot);
      if spot.phase == Nodes {
        NoEdgeFilesYet(c, c.sources[spot.g], spot.j);
      }
    }
  }

  lemma AllPhaseFacts(c: Config, w: World)
    requires Good(c, w) && w.proc.Some?
    ensures PhaseFacts(c, w.proc.value)
  {
    hide InBody, MemoryAt, DiskAt, BodyAt, Complete, Idle, Holds, Only, SchemasFit, ValidSpot, PhaseFiles, Blames;
    var p := w.proc.value;
    if p.pc.PhaseEnd? || p.pc.GraphEnd? {
      var spot, schemas :| RunningAt(c, w.disk, p, spot, schemas);
      BodyPhaseFacts(c, w.disk, p, spot, schemas);
    }
  }

  lemma OneMoreFile(files: seq<FileEntry>, e: FileEntry)
    ensures |PhaseFiles(files + [e], e.phase)| == |PhaseFiles(files, e.phase)| + 1
  {
    assert (files + [e])[..|files + [e]| - 1] == files;
  }

  lemma TowardsOutside(c: Config, w: World, g: nat, phase: Phase, j: nat)
    requires Succeeds(c, w) && Target(c, g, phase, j) && Towards(w.proc.value, g, phase, j) && !InGraph(w.proc.value.pc)
    ensures Towards(Step(c, w).proc.value, g, phase, j) || AtShard(Step(c, w).proc.value, g, phase, j)
  {
    hide ShardsLeft, FilesAccepted, ManifestAccepted, NextParquet, NextJsonl, NextShard, CurrentRows, Shards;
    assert PhaseFiles([], phase) == [];
    hide PhaseFiles;
  }

  lemma TowardsInside(c: Config, w: World, g: nat, phase: Phase, j: nat)
    requires Succeeds(c, w) && Target(c, g, phase, j) && Towards(w.proc.value, g, phase, j)
    requires InGraph(w.proc.value.pc) && !Publishing(w.proc.value.pc) && PhaseFacts(c, w.proc.value)
    ensures Towards(Step(c, w).proc.value, g, phase, j)
  {
    hide ShardsLeft, Restorable, PhaseTotal, Query, Observable, NextParquet, NextJsonl, NextShard, PhaseFiles, CountsOf, Counts.Plus, ScannedKinds, KindsOfItems, ItemOf, CurrentRows, Records, AllShort, Shards;
  }

  lemma TowardsPublishing(c: Config, w: World, g: nat, phase: Phase, j: nat)
    requires Succeeds(c, w) && Towards(w.proc.value, g, phase, j) && Publishing(w.proc.value.pc)
    ensures Towards(Step(c, w).proc.value, g, phase, j)
  {
    hide ShardsLeft, NextParquet, NextJsonl, NextShard, PhaseFiles, CurrentRows, Rename;
    var p, p' := w.proc.value, Step(c, w).proc.value;
    if p.pc.Commit? {
      var cur, items := p.ck.current.value, p.open.value;
      OneMoreFile(cur.files, FileEntry(cur.phase, NextJsonl(cur), |items|, items, p.shardCounts));
    }
  }

  lemma TowardsKeeps(c: Config, w: World, g: nat, phase: Phase, j: nat)
    requires Succeeds(c, w) && Good(c, w) && Target(c, g, phase, j) && Towards(w.proc.value, g, phase, j)
    ensures Towards(Step(c, w).proc.value, g, phase, j) || AtShard(Step(c, w).proc.value, g, phase, j)
  {
    hide Good, Step, Bounded, Towards, AtShard, Target, PhaseFacts;
    if !InGraph(w.proc.value.pc) {
      TowardsOutside(c, w, g, phase, j);
    } else if Publishing(w.proc.value.pc) {
      TowardsPublishing(c, w, g, phase, j);
    } else {
      AllPhaseFacts(c, w);
      TowardsInside(c, w, g, phase, j);
    }
  }

  lemma {:induction false} Approaches(c: Config, w: World, g: nat, phase: Phase, j: nat) returns (n: nat)
    requires Dumpable(c) && Good(c, w) && w.proc.Some? && Calm(c, w.proc.value) && Target(c, g, phase, j)
    requires Towards(w.proc.value, g, phase, j) || AtShard(w.proc.value, g, phase, j)
    ensures Good(c, Iterate(c, w, n)) && Iterate(c, w, n).proc.Some? && AtShard(Iterate(c, w, n).proc.value, g, phase, j)
    decreases WorkOf(c, w).graphs, WorkOf(c, w).stage, WorkOf(c, w).shards, WorkOf(c, w).point, WorkOf(c, w).rows, WorkOf(c, w).inner
  {
    hide Good, Step, WorkLeft, Bounded, Dumpable, Calm, PhaseFiles, Target;
    if AtShard(w.proc.value, g, phase, j) {
      n := 0;
    } else {
      CalmGoesOn(c, w);
      StepReduces(c, w);
      TowardsKeeps(c, w, g, phase, j);
      n := Approaches(c, Step(c, w), g, phase, j);
      n := n + 1;
    }
  }

  lemma StartsTowards(c: Config, g: nat, phase: Phase, j: nat)
    requires ValidConfig(c)
    ensures var w := Start(c, World(map[], None)); Good(c, w) && Calm(c, w.proc.value) && Towards(w.proc.value, g, phase, j)
  {
    hide Good, ValidConfig;
    StartKeeps(c, World(map[], None));
  }

  /** Start, and go on until `j` shards of the phase of graph `g` are committed. */
  lemma RunToShard(c: Config, g: nat, phase: Phase, j: nat) returns (worlds: seq<World>, w: World)
    requires ValidConfig(c) && Dumpable(c) && Target(c, g, phase, j)
    ensures EndsIn(c, worlds, w) && Good(c, w) && w.proc.Some? && AtShard(w.proc.value, g, phase, j)
  {
    hide Good, ValidConfig, Dumpable, AtShard, Towards, EndsIn, Step, Calm, Target;
    var w0 := World(map[], None);
    var w1 := Start(c, w0);
    StartsTowards(c, g, phase, j);
    assert EndsIn(c, [w0], w0) by { OneWorld(c); }
    assert Next(c, w0, w1);
    Extend(c, [w0], w0, w1);
    var n := Approaches(c, w1, g, phase, j);
    w := Iterate(c, w1, n);
    worlds := ExtendBy(c, [w0] + [w1], w1, n);
  }

  // ----- Crashing there, and resuming -----

  /** The checkpoint in memory is that of the spot, and it is the durable one. */
  lemma ShardDurable(c: Config, w: World, g: nat, phase: Phase, j: nat)
    requires Good(c, w) && w.proc.Some? && AtShard(w.proc.value, g, phase, j)
    ensures g < |c.sources| && ValidSpot(c, Within(g, phase, j))
    ensures w.proc.value.ck.current == Some(CurrentAt(c, g, phase, j)) && |w.proc.value.ck.manifest.schemas| == g
    ensures HasContent(w.disk, Final(CheckpointFile), CheckpointContent(w.proc.value.ck)) && Final(ManifestFile) !in w.disk
  {
    hide ValidConfig, StagedAt, CurrentAt, IdentityOf, MayScan, Holds, Only, Idle, SchemaFits, ExpectedGraph, ExpectedMetrics, Totals, TakenAt, PhaseFiles, NextJsonl, NextParquet, ReadyToPublish, PhaseDone, GatheredTo, Blames, JunkAt;
    var p := w.proc.value;
    var spot, schemas :| RunningAt(c, w.disk, p, spot, schemas);
    assert InBody(c, w.disk, p, spot, schemas);
    ShardSizePositive(c);
    assert spot.Within? by { ScanWithin(c, p, spot); }
    NoManifest(c, w.disk, spot, schemas, JunkAt(c, p, spot, p.pc));
    CurrentFields(c, spot);
    NextNames(c, spot);
    assert spot == Within(g, phase, j);
  }

  lemma ScanWithin(c: Config, p: Process, spot: Spot)
    requires MayScan(c, p, spot)
    ensures spot.Within?
  {
  }

  lemma CrashAndResume(c: Config, worlds: seq<World>, w: World) returns (more: seq<World>, w': World)
    requires ValidConfig(c) && EndsIn(c, worlds, w) && Good(c, w) && w.proc.Some?
    requires HasContent(w.disk, Final(CheckpointFile), CheckpointContent(w.proc.value.ck)) && Final(ManifestFile) !in w.disk
    ensures EndsIn(c, more, w') && Good(c, w') && w'.disk == w.disk
    ensures var ck := w.proc.value.ck; w'.proc == Some(Boot(Cleaning(KnownTemps(ck)), ck))
  {
    hide Good, ValidConfig, EndsIn, Step, CheckpointAccepted, IdentityOf, KnownTemps, Untouched;
    var down := Crash(w, {});
    assert CanCrash(w, {});
    assert Next(c, w, down);
    Extend(c, worlds, w, down);
    CrashKeeps(c, w, {});
    assert down.disk == w.disk;
    AlwaysResumable(c, down);
    assert CanResume(c, down);
    w' := Resume(down);
    assert Next(c, down, w');
    Extend(c, worlds + [down], down, w');
    ResumeKeeps(c, down);
    more := worlds + [down] + [w'];
  }
}
