/** What a resume refuses: changed, missing and foreign files, and sources or fragments that no longer fit the checkpoint. */
module DumpRefusals {
  import opened Optional
  import Metrics
  import opened DumpModel
  import opened DumpProtocol
  import opened DumpAcceptance
  import opened DumpSpots
  import opened DumpProgress
  import DumpValidators

  // ----- Changed files -----

  ghost function StoredCheckpoint(disk: Disk): Option<Checkpoint> {
    if Final(CheckpointFile) in disk && disk[Final(CheckpointFile)].CheckpointContent? then Some(disk[Final(CheckpointFile)].checkpoint) else None
  }

  lemma ListedStays(c: Config, disk: Disk, e: FileEntry)
    requires Loadable(c, disk) && Lists(StoredCheckpoint(disk).value, e)
    ensures var ck := StoredCheckpoint(disk).value;
            && e.path.Fragment? && Final(e.path) in disk && disk[Final(e.path)] == JsonLines(e.digest) && !Leftover(ck, Final(e.path))
            && (c.parquet ==> var twin := Final(ParquetFragment(e.path.graph, e.path.phase, e.path.shard)); twin in disk && !Leftover(ck, twin))
  {
    hide Sound, Lists, Leftover;
    var ck := StoredCheckpoint(disk).value;
    assert Intact(Cleaned(disk, ck), ck.identity.parquet, e);
    assert ck.identity.parquet == c.parquet by { SoundParquet(c, ck); }
  }

  lemma SoundParquet(c: Config, ck: Checkpoint)
    requires Sound(c, ck)
    ensures ck.identity.parquet == c.parquet
  {
  }

  /** Other contents in a listed fragment, or none, and the directory is refused. */
  lemma ChangedIsRefused(c: Config, disk: Disk, disk': Disk, e: FileEntry)
    requires Loadable(c, disk) && Lists(StoredCheckpoint(disk).value, e)
    requires StoredCheckpoint(disk') == StoredCheckpoint(disk)
    requires Final(e.path) !in disk' || disk'[Final(e.path)] != JsonLines(e.digest)
    ensures !Loadable(c, disk')
  {
    ListedStays(c, disk, e);
    hide Sound, Lists, Leftover;
    var ck := StoredCheckpoint(disk).value;
    assert !Intact(Cleaned(disk', ck), ck.identity.parquet, e);
  }

  /** Without the Parquet twin of a listed fragment the directory is refused. */
  lemma MissingTwinIsRefused(c: Config, disk: Disk, disk': Disk, e: FileEntry)
    requires Loadable(c, disk) && Lists(StoredCheckpoint(disk).value, e) && c.parquet
    requires StoredCheckpoint(disk') == StoredCheckpoint(disk)
    requires e.path.Fragment? ==> Final(ParquetFragment(e.path.graph, e.path.phase, e.path.shard)) !in disk'
    ensures !Loadable(c, disk')
  {
    ListedStays(c, disk, e);
    hide Sound, Lists, Leftover;
    var ck := StoredCheckpoint(disk).value;
    assert ck.identity.parquet == c.parquet by { SoundParquet(c, ck); }
    assert !Intact(Cleaned(disk', ck), ck.identity.parquet, e);
  }

  /** With a file that is neither listed nor a leftover the directory is refused. */
  lemma ForeignIsRefused(c: Config, disk': Disk, ck: Checkpoint, f: FileName)
    requires StoredCheckpoint(disk') == Some(ck) && f in disk' && f != Final(CheckpointFile) && !Leftover(ck, f)
    requires forall e :: Lists(ck, e) ==> !NameOf(c.parquet, e, f)
    ensures !Loadable(c, disk')
  {
    hide Lists, Leftover, NameOf;
    assert f in Cleaned(disk', ck);
    if Loadable(c, disk') {
      SoundParquet(c, ck);
    }
  }

  /** A load after one listed fragment was overwritten returns nothing. */
  method LoadOverwritten(c: Config, disk: Disk, path: Path, content: Content, ghost e: FileEntry)
    returns (loaded: Option<Checkpoint>)
    requires Loadable(c, disk) && Lists(StoredCheckpoint(disk).value, e) && path == e.path && content != JsonLines(e.digest)
    ensures loaded.None?
  {
    ListedStays(c, disk, e);
    hide Loadable, Lists, Leftover;
    var changed := disk[Final(path) := content];
    ChangedIsRefused(c, disk, changed, e);
    ghost var spot := Between(0);
    var rest;
    loaded, rest := DumpValidators.LoadCompatibleCheckpoint(c, changed, spot, []);
  }

  // ----- Sources and fragments that changed -----

  /** The completed graphs still have as many nodes and relationships as were dumped. */
  ghost predicate CompletedUnchanged(c: Config, ck: Checkpoint) {
    && |ck.manifest.graphs| <= |c.sources|
    && forall g :: 0 <= g < |ck.manifest.graphs| ==>
                     |c.sources[g].nodes| == ck.manifest.graphs[g].nodeCount && |c.sources[g].edges| == ck.manifest.graphs[g].edgeCount
  }

  /** So does the graph in progress. */
  ghost predicate CurrentUnchanged(c: Config, cur: Current) {
    && cur.index < |c.sources| && cur.snapshot.Some?
    && |c.sources[cur.index].nodes| == cur.snapshot.value.nodeCount && |c.sources[cur.index].edges| == cur.snapshot.value.edgeCount
  }

  /** Each fragment has as many records as listed, all of the kind its phase asks for. */
  ghost predicate RightRecords(e: FileEntry) {
    |e.digest| == e.count && forall k :: 0 <= k < |e.digest| ==> if e.phase == Nodes then e.digest[k].NodeItem? else e.digest[k].EdgeItem?
  }

  function NodesIn(items: seq<Item>): set<nat> {
    set i: nat | i < |items| && items[i].NodeItem?
  }

  ghost predicate NodeBefore(items: seq<Item>, b: nat, id: nat) {
    exists a: nat :: a < b && a < |items| && items[a].NodeItem? && items[a].id == id
  }

  /** No node twice, not too many, and every relationship between nodes read before it. */
  ghost predicate Consistent(items: seq<Item>) {
    && (forall a, b :: 0 <= a < b < |items| && items[a].NodeItem? && items[b].NodeItem? ==> items[a].id != items[b].id)
    && |NodesIn(items)| <= 4294967295
    && (forall b: nat :: b < |items| && items[b].EdgeItem? ==> NodeBefore(items, b, items[b].start) && NodeBefore(items, b, items[b].end))
  }

  /** In the node phase the cursor is the ID of the last node read. */
  ghost predicate CursorFits(cur: Current, items: seq<Item>) {
    cur.phase == Nodes && cur.last.Some? ==>
      items != [] && items[|items| - 1].NodeItem? && items[|items| - 1].id == cur.last.value
  }

  ghost predicate ReadsBack(c: Config, cur: Current) {
    var items := Records(cur.files);
    && (forall i :: 0 <= i < |items| && c.line(items[i]).Some? ==> c.line(items[i]).value <= 10 * 1024 * 1024)
    && (forall i :: 0 <= i < |cur.files| ==> RightRecords(cur.files[i]))
    && Consistent(items) && CursorFits(cur, items)
  }

  // ----- Observing what was read -----

  lemma SeenIsBefore(items: seq<Item>, b: nat, id: nat)
    requires b <= |items|
    ensures SeenNode(ObserveAll(items)[..b], id) <==> NodeBefore(items, b, id)
  {
    var observed := ObserveAll(items)[..b];
    if NodeBefore(items, b, id) {
      var a: nat :| a < b && a < |items| && items[a].NodeItem? && items[a].id == id;
      assert observed[a].SawNode? && observed[a].id == id;
    }
    if SeenNode(observed, id) {
      var a :| 0 <= a < |observed| && observed[a].SawNode? && observed[a].id == id;
      assert items[a].NodeItem? && items[a].id == id;
    }
  }

  lemma {:induction false} SeenNodesAre(items: seq<Item>, b: nat)
    requires b <= |items|
    ensures NodesSeen(ObserveAll(items)[..b]) == |NodesIn(items[..b])|
  {
    if b > 0 {
      SeenNodesAre(items, b - 1);
      assert ObserveAll(items)[..b][..b - 1] == ObserveAll(items)[..b - 1];
      assert NodesIn(items[..b]) == NodesIn(items[..b - 1]) + if items[b - 1].NodeItem? then {b - 1} else {};
    }
  }

  lemma FewerNodes(items: seq<Item>, b: nat)
    requires b <= |items|
    ensures |NodesIn(items[..b])| <= |NodesIn(items)|
    ensures b < |items| && items[b].NodeItem? ==> |NodesIn(items[..b])| < |NodesIn(items)|
  {
    Subset(NodesIn(items[..b]), NodesIn(items));
    if b < |items| && items[b].NodeItem? {
      Subset(NodesIn(items[..b]), NodesIn(items) - {b});
    }
  }

  lemma {:induction false} LastNode(items: seq<Item>)
    requires |NodesIn(items)| > 0
    ensures exists b: nat :: b < |items| && items[b].NodeItem? && |NodesIn(items[..b])| + 1 == |NodesIn(items)|
  {
    var n := |items| - 1;
    var front := items[..n];
    assert NodesIn(items) == NodesIn(front) + if items[n].NodeItem? then {n} else {};
    if !items[n].NodeItem? {
      LastNode(front);
      var b: nat :| b < |front| && front[b].NodeItem? && |NodesIn(front[..b])| + 1 == |NodesIn(front)|;
      assert front[..b] == items[..b];
    }
  }

  lemma ObservableAt(items: seq<Item>, b: nat)
    requires b < |items|
    ensures Observable(ObserveAll(items)[..b], ObserveAll(items)[b]) <==>
            if items[b].NodeItem? then !NodeBefore(items, b, items[b].id) && |NodesIn(items[..b])| < Metrics.MAX_ORDINALS
            else NodeBefore(items, b, items[b].start) && NodeBefore(items, b, items[b].end)
  {
    hide NodeBefore, NodesIn, SeenNode, NodesSeen;
    SeenNodesAre(items, b);
    match items[b]
    case NodeItem(id, _, _) => SeenIsBefore(items, b, id);
    case EdgeItem(start, end, _, _) =>
      SeenIsBefore(items, b, start);
      SeenIsBefore(items, b, end);
  }

  ghost predicate AllTaken(items: seq<Item>) {
    forall b: nat :: b < |items| ==>
      if items[b].NodeItem? then !NodeBefore(items, b, items[b].id) && |NodesIn(items[..b])| < Metrics.MAX_ORDINALS
      else NodeBefore(items, b, items[b].start) && NodeBefore(items, b, items[b].end)
  }

  lemma TakenIsConsistent(items: seq<Item>)
    ensures AllTaken(items) <==> Consistent(items)
  {
    if AllTaken(items) {
      forall a, b | 0 <= a < b < |items| && items[a].NodeItem? && items[b].NodeItem?
        ensures items[a].id != items[b].id
      {
        assert !NodeBefore(items, b, items[b].id);
      }
      hide NodeBefore, NodesIn;
      if |NodesIn(items)| > 0 {
        LastNode(items);
        var b: nat :| b < |items| && items[b].NodeItem? && |NodesIn(items[..b])| + 1 == |NodesIn(items)|;
      }
    }
    if Consistent(items) {
      forall b: nat | b < |items| && items[b].NodeItem?
        ensures !NodeBefore(items, b, items[b].id) && |NodesIn(items[..b])| < Metrics.MAX_ORDINALS
      {
        FewerNodes(items, b);
      }
    }
  }

  /** The metrics take what was read exactly when it is consistent. */
  lemma ObservedIffConsistent(items: seq<Item>)
    ensures AllObservable(ObserveAll(items)) <==> Consistent(items)
  {
    TakenIsConsistent(items);
    hide NodeBefore, NodesIn, Consistent, Observable;
    forall b: nat | b < |items|
      ensures Observable(ObserveAll(items)[..b], ObserveAll(items)[b]) <==>
              if items[b].NodeItem? then !NodeBefore(items, b, items[b].id) && |NodesIn(items[..b])| < Metrics.MAX_ORDINALS
              else NodeBefore(items, b, items[b].start) && NodeBefore(items, b, items[b].end)
    {
      ObservableAt(items, b);
    }
  }

  lemma RestoreIff(c: Config, disk: Disk, cur: Current)
    requires forall i :: 0 <= i < |cur.files| ==> Final(cur.files[i].path) in disk && disk[Final(cur.files[i].path)] == JsonLines(cur.files[i].digest)
    ensures AllShort(c, Records(cur.files)) && Restorable(disk, cur) <==> ReadsBack(c, cur)
  {
    hide Records, Consistent, AllObservable, ObserveAll;
    ObservedIffConsistent(Records(cur.files));
    forall i | 0 <= i < |cur.files|
      ensures RightRecords(cur.files[i]) <==>
              && |cur.files[i].digest| == cur.files[i].count
              && (forall k :: 0 <= k < |cur.files[i].digest| ==> (cur.files[i].digest[k].NodeItem? <==> cur.files[i].phase == Nodes))
    {
    }
  }

  // ----- The way from a resume to the scan -----

  ghost predicate FilesThere(disk: Disk, cur: Current) {
    forall i :: 0 <= i < |cur.files| ==> Final(cur.files[i].path) in disk && disk[Final(cur.files[i].path)] == JsonLines(cur.files[i].digest)
  }

  lemma {:induction false} IterateMore(c: Config, w: World, n: nat, k: nat)
    ensures Iterate(c, w, n + k) == Iterate(c, Iterate(c, w, n), k)
    decreases n
  {
    hide Step;
    if n > 0 {
      IterateMore(c, Step(c, w), n - 1, k);
    }
  }

  lemma {:induction false} StaysFailed(c: Config, w: World, n: nat)
    requires w.proc.Some? && w.proc.value.pc.Failed?
    ensures Iterate(c, w, n) == w
    decreases n
  {
    if n > 0 {
      StaysFailed(c, w, n - 1);
    }
  }

  /** Cleaning removes its paths one by one. */
  lemma {:induction false} CleaningEnds(c: Config, w: World, p: Process, paths: seq<FileName>)
    requires w.proc == Some(p.(pc := Cleaning(paths)))
    ensures Iterate(c, w, |paths| + 1) == World(w.disk - (set f | f in paths), Some(p.(pc := CheckFiles)))
    decreases |paths|
  {
    if paths == [] {
      assert w.disk - (set f | f in paths) == w.disk;
      assert Iterate(c, Step(c, w), 0) == Step(c, w);
    } else {
      var next := World(w.disk - {paths[0]}, Some(p.(pc := Cleaning(paths[1..]))));
      assert Step(c, w) == next;
      CleaningEnds(c, next, p, paths[1..]);
      assert paths == [paths[0]] + paths[1..];
      assert w.disk - {paths[0]} - (set f | f in paths[1..]) == w.disk - (set f | f in paths);
    }
  }

  lemma CheckStep(c: Config, w: World, p: Process)
    requires w.proc == Some(p) && p.pc == CheckFiles && Sound(c, p.ck)
    ensures Step(c, w) == if IntactFiles(w.disk, p.ck) && CompletedUnchanged(c, p.ck) then Go(w, p.(pc := GraphStart)) else Fail(w, p, Inconsistent)
  {
    hide Sound, IntactFiles, FilesAccepted;
    FilesAreIntact(c, w.disk, p.ck);
  }

  /** After the leftovers are removed, a resume goes on exactly when the files are intact and the completed graphs unchanged. */
  lemma ResumeChecks(c: Config, w: World)
    requires CanResume(c, w)
    ensures var ck := w.disk[Final(CheckpointFile)].checkpoint;
            Iterate(c, Resume(w), |KnownTemps(ck)| + 2) ==
            World(Cleaned(w.disk, ck),
                  Some(Boot(if IntactFiles(Cleaned(w.disk, ck), ck) && CompletedUnchanged(c, ck) then GraphStart else Failed(Inconsistent), ck)))
  {
    hide CheckpointAccepted, IdentityOf, Sound, IntactFiles, Cleaned, KnownTemps, CompletedUnchanged, Step;
    var ck := w.disk[Final(CheckpointFile)].checkpoint;
    AcceptedIsSound(c, ck);
    var paths, p := KnownTemps(ck), Boot(Cleaning(KnownTemps(ck)), ck);
    CleaningEnds(c, Resume(w), p, paths);
    RemovalCleans(w.disk, ck);
    IterateMore(c, Resume(w), |paths| + 1, 1);
    var w' := World(Cleaned(w.disk, ck), Some(p.(pc := CheckFiles)));
    CheckStep(c, w', p.(pc := CheckFiles));
    assert Iterate(c, Step(c, w'), 0) == Step(c, w');
  }

  lemma CurrentFacts(c: Config, ck: Checkpoint)
    requires Sound(c, ck) && ck.current.Some?
    ensures |ck.manifest.graphs| == ck.current.value.index < |c.sources| && ck.current.value.snapshot.Some?
  {
    hide NodesComeFirst, CountedOff, Recorded;
  }

  lemma IntactThere(disk: Disk, ck: Checkpoint)
    requires IntactFiles(disk, ck) && ck.current.Some?
    ensures FilesThere(disk, ck.current.value)
  {
    var cur := ck.current.value;
    forall i | 0 <= i < |cur.files|
      ensures Final(cur.files[i].path) in disk && disk[Final(cur.files[i].path)] == JsonLines(cur.files[i].digest)
    {
      assert Lists(ck, cur.files[i]);
      assert Intact(disk, ck.identity.parquet, cur.files[i]);
    }
  }

  lemma StartStep(c: Config, w: World, p: Process)
    requires w.proc == Some(p) && p.pc == GraphStart && |p.ck.manifest.graphs| < |c.sources| && p.ck.current.Some?
    ensures Step(c, w) == Go(w, p.(pc := CountEntities))
  {
  }

  lemma CountStep(c: Config, w: World, p: Process)
    requires w.proc == Some(p) && p.pc == CountEntities && p.ck.current.Some? && p.ck.current.value.index < |c.sources| && p.ck.current.value.snapshot.Some?
    ensures Step(c, w) == if CurrentUnchanged(c, p.ck.current.value) then Go(w, p.(pc := Restore)) else Fail(w, p, Inconsistent)
  {
  }

  lemma RestoreStep(c: Config, w: World, p: Process)
    requires w.proc == Some(p) && p.pc == Restore && p.ck.current.Some? && FilesThere(w.disk, p.ck.current.value)
    ensures Step(c, w).disk == w.disk && Step(c, w).proc.Some?
    ensures Step(c, w).proc.value.pc == EnterPhase <==> ReadsBack(c, p.ck.current.value)
    ensures Step(c, w).proc.value.pc == EnterPhase || Step(c, w).proc.value.pc.Failed?
  {
    hide ReadsBack, Restorable, AllShort;
    RestoreIff(c, w.disk, p.ck.current.value);
  }

  lemma AfterChecks(c: Config, w: World, p: Process)
    requires w.proc == Some(p) && p.pc == GraphStart && Sound(c, p.ck) && p.ck.current.Some? && FilesThere(w.disk, p.ck.current.value)
    ensures var w' := Iterate(c, w, 3);
            && w'.disk == w.disk && w'.proc.Some? && (w'.proc.value.pc == EnterPhase || w'.proc.value.pc.Failed?)
            && (w'.proc.value.pc == EnterPhase <==> CurrentUnchanged(c, p.ck.current.value) && ReadsBack(c, p.ck.current.value))
  {
    hide Sound, FilesThere, ReadsBack, Step, CurrentUnchanged;
    CurrentFacts(c, p.ck);
    StartStep(c, w, p);
    var counting := Go(w, p.(pc := CountEntities));
    CountStep(c, counting, counting.proc.value);
    ThreeSteps(c, w);
    if CurrentUnchanged(c, p.ck.current.value) {
      var restoring := Go(w, p.(pc := Restore));
      RestoreStep(c, restoring, restoring.proc.value);
    } else {
      FailedStep(c, Step(c, counting));
    }
  }

  lemma ThreeSteps(c: Config, w: World)
    ensures Iterate(c, w, 3) == Step(c, Step(c, Step(c, w)))
  {
    hide Step;
    assert Iterate(c, Step(c, Step(c, Step(c, w))), 0) == Step(c, Step(c, Step(c, w)));
  }

  lemma FailedStep(c: Config, w: World)
    requires w.proc.Some? && w.proc.value.pc.Failed?
    ensures Step(c, w) == w
  {
  }

  /**
   * A resume in the middle of a graph gets to the scan exactly when the files are intact, no source changed its counts, and what
   * is committed of the graph in progress reads back as a consistent part of it; otherwise it fails. Nothing but leftovers is removed.
   */
  lemma ResumeEntersIff(c: Config, w: World)
    requires CanResume(c, w) && w.disk[Final(CheckpointFile)].checkpoint.current.Some?
    ensures var ck := w.disk[Final(CheckpointFile)].checkpoint;
            var w' := Iterate(c, Resume(w), |KnownTemps(ck)| + 5);
            && w'.disk == Cleaned(w.disk, ck) && w'.proc.Some? && (w'.proc.value.pc == EnterPhase || w'.proc.value.pc.Failed?)
            && (w'.proc.value.pc == EnterPhase <==>
                && IntactFiles(Cleaned(w.disk, ck), ck) && CompletedUnchanged(c, ck)
                && CurrentUnchanged(c, ck.current.value) && ReadsBack(c, ck.current.value))
  {
    hide CheckpointAccepted, IdentityOf, Sound, IntactFiles, Cleaned, KnownTemps, CompletedUnchanged, CurrentUnchanged, ReadsBack, Step, FilesThere, Iterate;
    var ck := w.disk[Final(CheckpointFile)].checkpoint;
    ResumeChecks(c, w);
    AcceptedIsSound(c, ck);
    var n := |KnownTemps(ck)| + 2;
    var mid := Iterate(c, Resume(w), n);
    IterateMore(c, Resume(w), n, 3);
    if IntactFiles(Cleaned(w.disk, ck), ck) && CompletedUnchanged(c, ck) {
      IntactThere(mid.disk, ck);
      AfterChecks(c, mid, mid.proc.value);
    } else {
      StaysFailed(c, mid, 3);
    }
  }
}
