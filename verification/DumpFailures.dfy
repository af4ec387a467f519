/** When a dump fails, and when it can never be finished any more. */
module DumpFailures {
  import opened Optional
  import opened DumpModel
  import opened DumpProtocol
  import opened DumpShards
  import opened DumpSpots
  import opened DumpDisk
  import opened DumpInvariant
  import opened DumpDiskSteps
  import opened DumpSteps
  import opened DumpRuns
  import opened DumpProgress
  import opened DumpJourneys

  // ----- Some run fails exactly when the source gives it a reason -----

  lemma UninterruptedFails(c: Config) returns (worlds: seq<World>, w: World)
    requires ValidConfig(c) && !Dumpable(c)
    ensures EndsIn(c, worlds, w) && w.proc.Some? && w.proc.value.pc.Failed?
  {
    hide Good, ValidConfig, EndsIn, Step, Dumpable, Calm;
    var w0 := World(map[], None);
    var w1 := Start(c, w0);
    StartKeeps(c, w0);
    assert EndsIn(c, [w0], w0) by { OneWorld(c); }
    assert Next(c, w0, w1);
    Extend(c, [w0], w0, w1);
    var n := Finishes(c, w1);
    w := Iterate(c, w1, n);
    worlds := ExtendBy(c, [w0] + [w1], w1, n);
  }

  /** A record too long to be read back is among those committed once all shards of its phase are. */
  lemma LongRecord(c: Config) returns (g: nat, phase: Phase, j: nat)
    requires ValidConfig(c) && !LinesFit(c)
    ensures Target(c, g, phase, j)
    ensures !AllShort(c, Records(CurrentAt(c, g, phase, j).files))
  {
    hide Records, CommittedAt, Short, AllShort;
    g :| 0 <= g < |c.sources| && !(RowsFit(c, c.sources[g].nodes, |c.sources[g].nodes|) && RowsFit(c, c.sources[g].edges, |c.sources[g].edges|));
    var s := c.sources[g];
    phase := if RowsFit(c, s.nodes, |s.nodes|) then Edges else Nodes;
    j := Shards(c, s, phase);
    CutFull(|s.Rows(phase)|, c.shardSize, j);
    ReadsBackIff(c, Within(g, phase, j));
    assert CurrentAt(c, g, phase, j).files == CommittedAt(c, s, phase, j);
  }

  /** Commit that record, crash, resume: the process fails. */
  lemma ResumeFails(c: Config) returns (worlds: seq<World>, w: World)
    requires ValidConfig(c) && Dumpable(c) && !LinesFit(c)
    ensures EndsIn(c, worlds, w) && w.proc.Some? && w.proc.value.pc.Failed?
  {
    hide Good, ValidConfig, EndsIn, Step, Dumpable, LinesFit, AtShard, Target, KnownTemps, AllShort, Records, CurrentAt, ValidSpot;
    ShardSizePositive(c);
    var g, phase, j := LongRecord(c);
    var worlds1, w1 := RunToShard(c, g, phase, j);
    ShardDurable(c, w1, g, phase, j);
    var worlds2, w2 := CrashAndResume(c, worlds1, w1);
    assert !Calm(c, w2.proc.value);
    var n := Finishes(c, w2);
    w := Iterate(c, w2, n);
    worlds := ExtendBy(c, worlds2, w2, n);
  }

  /**
   * Some run fails if and only if a graph has more nodes than the metrics can number, a record cannot be encoded, or the line of a
   * record is too long to be read back.
   */
  lemma FailsIff(c: Config)
    requires ValidConfig(c)
    ensures !(Dumpable(c) && LinesFit(c)) <==> exists worlds, w :: EndsIn(c, worlds, w) && w.proc.Some? && w.proc.value.pc.Failed?
  {
    hide ValidConfig, Dumpable, LinesFit, Run, Blames;
    if !Dumpable(c) {
      var worlds, w := UninterruptedFails(c);
    } else if !LinesFit(c) {
      var worlds, w := ResumeFails(c);
    }
    if worlds, w :| EndsIn(c, worlds, w) && w.proc.Some? && w.proc.value.pc.Failed? {
      RunNonEmpty(c, worlds);
      NeverFails(c, worlds, |worlds| - 1);
      BlamedOnSource(c, w.proc.value.pc.cause);
    }
  }

  // ----- A directory that cannot be resumed stays one -----

  /** The durable checkpoint lists a record that cannot be read back, and nobody at work has got past that. */
  ghost predicate Stuck(c: Config, w: World, ck: Checkpoint) {
    && HasContent(w.disk, Final(CheckpointFile), CheckpointContent(ck)) && Final(ManifestFile) !in w.disk
    && ck.current.Some? && ck.current.value.snapshot.Some? && |ck.manifest.graphs| < |c.sources|
    && !AllShort(c, Records(ck.current.value.files))
    && (w.proc.Some? ==> w.proc.value.ck == ck && StuckAt(w.proc.value.pc))
  }

  predicate StuckAt(pc: Pc) {
    || pc.Failed? || pc.CheckFiles? || pc.GraphStart? || pc.CountEntities? || pc.Restore?
    || (pc.Cleaning? && Final(CheckpointFile) !in pc.paths)
  }

  lemma StuckStep(c: Config, w: World, ck: Checkpoint)
    requires Stuck(c, w, ck) && w.proc.Some?
    ensures Stuck(c, Step(c, w), ck)
  {
    hide FilesAccepted, Restorable, Records, AllShort, PhaseFiles, KindsOfItems, FileCounts, ObserveAll;
  }

  lemma CheckpointNeverTemp(ck: Checkpoint)
    ensures Final(CheckpointFile) !in KnownTemps(ck)
  {
  }

  lemma StuckNext(c: Config, w: World, w': World, ck: Checkpoint)
    requires Stuck(c, w, ck) && Next(c, w, w')
    ensures Stuck(c, w', ck)
  {
    hide Step, AllShort, Records, CheckpointAccepted, KnownTemps, Start, IdentityOf;
    CheckpointNeverTemp(ck);
    if w.proc.Some? && w' == Step(c, w) {
      StuckStep(c, w, ck);
    }
  }

  lemma {:induction false} StuckForever(c: Config, worlds: seq<World>, i: nat, k: nat, ck: Checkpoint)
    requires Run(c, worlds) && i <= k < |worlds| && Stuck(c, worlds[i], ck)
    ensures Stuck(c, worlds[k], ck)
    decreases k
  {
    hide Next, Stuck;
    if i < k {
      StuckForever(c, worlds, i, k - 1, ck);
      StuckNext(c, worlds[k - 1], worlds[k], ck);
    }
  }

  lemma IdleCheckpoint(c: Config, w: World, ck: Checkpoint)
    requires Good(c, w) && w.proc.None? && HasContent(w.disk, Final(CheckpointFile), CheckpointContent(ck)) && ck.current.Some?
    ensures Final(ManifestFile) !in w.disk && ck.current.value.snapshot.Some? && |ck.manifest.graphs| < |c.sources|
  {
    hide Holds, Only, SchemaFits, Temps, CommittedAt, ValidConfig, IdentityOf, ExpectedGraph, ExpectedMetrics, Totals, TakenAt;
    var spot, schemas :| Resumable(c, w.disk, spot, schemas);
    NoManifest(c, w.disk, spot, schemas, Temps(c, spot));
  }

  /**
   * Once a record that cannot be read back is committed and its process gone, no continuation of the run is ever done: whoever
   * resumes fails.
   */
  lemma NeverDoneAgain(c: Config, worlds: seq<World>, i: nat, k: nat, ck: Checkpoint)
    requires ValidConfig(c) && Run(c, worlds) && i <= k < |worlds| && worlds[i].proc.None?
    requires HasContent(worlds[i].disk, Final(CheckpointFile), CheckpointContent(ck)) && ck.current.Some?
    requires !AllShort(c, Records(ck.current.value.files))
    ensures worlds[k].proc.Some? ==> !worlds[k].proc.value.pc.Done?
  {
    hide Run, ValidConfig, Good, AllShort, Records;
    RunGood(c, worlds, i);
    IdleCheckpoint(c, worlds[i], ck);
    StuckForever(c, worlds, i, k, ck);
  }
}
