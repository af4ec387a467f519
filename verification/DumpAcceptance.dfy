/** What a resume accepts, entry by entry. */
module DumpAcceptance {
  import opened Optional
  import opened DumpModel
  import opened DumpProtocol

  // ----- Entries -----

  /** The number of records the entries of a phase add up to. */
  function Recorded(files: seq<FileEntry>, phase: Phase): nat {
    if files == [] then 0 else (if files[0].phase == phase then files[0].count else 0) + Recorded(files[1..], phase)
  }

  /** The entries of a phase. */
  function OfPhase(files: seq<FileEntry>, phase: Phase): set<nat> {
    set i: nat | i < |files| && files[i].phase == phase
  }

  /** The entries up to `i` of the phase of entry `i`. */
  function SamePhase(files: seq<FileEntry>, i: nat): set<nat>
    requires i < |files|
  {
    set k: nat | k <= i && files[k].phase == files[i].phase
  }

  /** Each phase numbers its fragments from 1 on, under the name of the graph. */
  ghost predicate CountedOff(name: string, files: seq<FileEntry>) {
    forall i: nat :: i < |files| ==> files[i].path == Fragment(name, files[i].phase, |SamePhase(files, i)|)
  }

  /** No node fragment comes after a relationship fragment. */
  ghost predicate NodesComeFirst(files: seq<FileEntry>) {
    forall i, j :: 0 <= i < |files| && 0 <= j < |files| && files[i].phase == Nodes && files[j].phase == Edges ==> i < j
  }

  // ----- Graphs and metrics -----

  /** A completed graph: named like the target, its fragments in order, and their records add up. */
  ghost predicate SoundGraph(name: string, g: GraphManifest) {
    && g.name == name && name != ""
    && NodesComeFirst(g.files) && CountedOff(name, g.files)
    && Recorded(g.files, Nodes) == g.nodeCount && Recorded(g.files, Edges) == g.edgeCount
  }

  /** The observations of nodes, and of relationships. */
  function NodesAmong(observed: seq<Observation>): set<nat> {
    set i: nat | i < |observed| && observed[i].SawNode?
  }

  function EdgesAmong(observed: seq<Observation>): set<nat> {
    set i: nat | i < |observed| && observed[i].SawEdge?
  }

  /** The metrics entry has the name and the counts of the graph. */
  ghost predicate SoundMetric(m: GraphMetrics, g: GraphManifest) {
    g.name == m.name && g.nodeCount == |NodesAmong(m.observed)| && g.edgeCount == |EdgesAmong(m.observed)|
  }

  ghost predicate HasGraph(m: GraphMetrics, graphs: seq<GraphManifest>) {
    exists g :: 0 <= g < |graphs| && SoundMetric(m, graphs[g])
  }

  /** There are as many metrics entries as graphs, under different names, each with the name and counts of a graph. */
  ghost predicate SoundMetrics(graphs: seq<GraphManifest>, metrics: seq<GraphMetrics>) {
    && |metrics| == |graphs|
    && (forall i, j :: 0 <= i < j < |metrics| ==> metrics[i].name != metrics[j].name)
    && (forall i :: 0 <= i < |metrics| ==> HasGraph(metrics[i], graphs))
  }

  // ----- The graph in progress -----

  ghost predicate SoundCurrent(c: Config, completed: nat, cur: Current) {
    && cur.index == completed < |c.sources| && cur.name == c.sources[completed].name
    && cur.snapshot.Some?
    && (forall i :: 0 <= i < |cur.files| ==> cur.files[i].count > 0)
    && NodesComeFirst(cur.files) && CountedOff(cur.name, cur.files)
    && Recorded(cur.files, Nodes) <= cur.snapshot.value.nodeCount && Recorded(cur.files, Edges) <= cur.snapshot.value.edgeCount
    && (cur.phase == Edges ==> Recorded(cur.files, Nodes) == cur.snapshot.value.nodeCount)
    && (cur.last.Some? <==> Recorded(cur.files, cur.phase) > 0)
  }

  // ----- The checkpoint -----

  /** Made by a dump of the same targets with the same options. */
  ghost predicate SameDump(c: Config, id: Identity) {
    && |id.graphs| == |c.sources| && (forall g :: 0 <= g < |c.sources| ==> id.graphs[g] == c.sources[g].name)
    && id.parquet == c.parquet && id.shardSize == c.shardSize && id.batchSize == c.batchSize
  }

  ghost predicate SoundGraphs(c: Config, graphs: seq<GraphManifest>)
    requires |graphs| <= |c.sources|
  {
    forall g :: 0 <= g < |graphs| ==> SoundGraph(c.sources[g].name, graphs[g])
  }

  ghost predicate Sound(c: Config, ck: Checkpoint) {
    && SameDump(c, ck.identity)
    && ck.manifest.graphCount == |c.sources|
    && |ck.manifest.graphs| <= |c.sources| && |ck.manifest.schemas| == |ck.manifest.graphs|
    && SoundGraphs(c, ck.manifest.graphs)
    && (forall g, h :: 0 <= g < h < |ck.manifest.graphs| ==> ck.manifest.graphs[g].name != ck.manifest.graphs[h].name)
    && SoundMetrics(ck.manifest.graphs, ck.manifest.metrics)
    && (ck.current.Some? ==> SoundCurrent(c, |ck.manifest.graphs|, ck.current.value))
  }

  // ----- The files -----

  /** The entry is listed, for a completed graph or for the one in progress. */
  ghost predicate Lists(ck: Checkpoint, e: FileEntry) {
    || (exists g, i :: 0 <= g < |ck.manifest.graphs| && 0 <= i < |ck.manifest.graphs[g].files| && ck.manifest.graphs[g].files[i] == e)
    || (ck.current.Some? && exists i :: 0 <= i < |ck.current.value.files| && ck.current.value.files[i] == e)
  }

  /** The fragment holds exactly the listed records, and its Parquet twin is there if there should be one. */
  ghost predicate Intact(disk: Disk, parquet: bool, e: FileEntry) {
    && e.path.Fragment?
    && Final(e.path) in disk && disk[Final(e.path)] == JsonLines(e.digest)
    && (parquet ==> Final(ParquetFragment(e.path.graph, e.path.phase, e.path.shard)) in disk)
  }

  ghost predicate NameOf(parquet: bool, e: FileEntry, f: FileName) {
    f == Final(e.path) || (parquet && e.path.Fragment? && f == Final(ParquetFragment(e.path.graph, e.path.phase, e.path.shard)))
  }

  /** A file an interrupted process may have left: a staging file, or the fragment that was about to be committed. */
  ghost predicate Leftover(ck: Checkpoint, f: FileName) {
    || f == Temp(CheckpointFile) || f == Temp(ManifestFile)
    || (&& ck.current.Some?
        && var cur := ck.current.value;
           (f.path == Fragment(cur.name, cur.phase, 1 + |OfPhase(cur.files, cur.phase)|))
           || (ck.identity.parquet && f.path == ParquetFragment(cur.name, cur.phase, 1 + |OfPhase(cur.files, cur.phase)|)))
  }

  /** The graph in progress does not list a fragment of a completed graph. */
  ghost predicate Apart(ck: Checkpoint) {
    ck.current.Some? ==>
      forall g, i, j :: 0 <= g < |ck.manifest.graphs| && 0 <= i < |ck.manifest.graphs[g].files| && 0 <= j < |ck.current.value.files| ==>
                          ck.manifest.graphs[g].files[i].path != ck.current.value.files[j].path
  }

  /** Once the leftovers are gone: the checkpoint, every listed fragment as it was committed, and nothing else. */
  ghost predicate IntactFiles(disk: Disk, ck: Checkpoint) {
    && Apart(ck)
    && (forall e :: Lists(ck, e) ==> Intact(disk, ck.identity.parquet, e))
    && (forall f :: f in disk ==> f == Final(CheckpointFile) || exists e :: Lists(ck, e) && NameOf(ck.identity.parquet, e, f))
  }

  // ----- The directory -----

  /** The directory without the leftovers. */
  ghost function Cleaned(disk: Disk, ck: Checkpoint): Disk {
    map f | f in disk && !Leftover(ck, f) :: disk[f]
  }

  /** A directory a resume goes on with: no manifest, and a sound checkpoint whose files are intact. */
  ghost predicate Loadable(c: Config, disk: Disk) {
    && Final(ManifestFile) !in disk
    && Final(CheckpointFile) in disk && disk[Final(CheckpointFile)].CheckpointContent?
    && var ck := disk[Final(CheckpointFile)].checkpoint;
       Sound(c, ck) && IntactFiles(Cleaned(disk, ck), ck)
  }

  // ----- The same, said by the validators -----

  lemma {:induction false} RecordedJoin(a: seq<FileEntry>, b: seq<FileEntry>, phase: Phase)
    ensures Recorded(a + b, phase) == Recorded(a, phase) + Recorded(b, phase)
  {
    if a == [] {
      assert a + b == b;
    } else {
      RecordedJoin(a[1..], b, phase);
      assert (a + b)[1..] == a[1..] + b;
    }
  }

  lemma {:induction false} TotalIsRecorded(files: seq<FileEntry>, phase: Phase)
    ensures PhaseTotal(files, phase) == Recorded(files, phase)
  {
    if files != [] {
      var n := |files| - 1;
      var front, last := files[..n], files[n];
      TotalIsRecorded(front, phase);
      assert files == front + [last];
      RecordedJoin(front, [last], phase);
      var before := PhaseFiles(front, phase);
      assert (before + [last])[..|before|] == before;
    }
  }

  lemma {:induction false} PhaseSizeIs(files: seq<FileEntry>, phase: Phase)
    ensures |PhaseFiles(files, phase)| == |OfPhase(files, phase)|
  {
    if files != [] {
      var n := |files| - 1;
      var front := files[..n];
      PhaseSizeIs(front, phase);
      assert OfPhase(files, phase) == OfPhase(front, phase) + if files[n].phase == phase then {n} else {};
    }
  }

  lemma RankIs(files: seq<FileEntry>, i: nat)
    requires i < |files|
    ensures |PhaseFiles(files[..i + 1], files[i].phase)| == |SamePhase(files, i)|
  {
    PhaseSizeIs(files[..i + 1], files[i].phase);
    assert OfPhase(files[..i + 1], files[i].phase) == SamePhase(files, i);
  }

  lemma NumberedIsCountedOff(name: string, files: seq<FileEntry>)
    ensures Numbered(name, files) <==> CountedOff(name, files)
  {
    hide PhaseFiles, SamePhase;
    forall i: nat | i < |files|
      ensures |PhaseFiles(files[..i + 1], files[i].phase)| == |SamePhase(files, i)|
    {
      RankIs(files, i);
    }
  }

  /** Numbers that are counted off are different. */
  lemma CountedOffDistinct(name: string, files: seq<FileEntry>)
    requires CountedOff(name, files)
    ensures DistinctPaths(files)
  {
    forall i, j | 0 <= i < j < |files|
      ensures files[i].path != files[j].path
    {
      assert files[i].path.Fragment? && files[j].path.Fragment?;
      if files[i].phase == files[j].phase {
        RankGrows(files, i, j);
      }
    }
  }

  lemma RankGrows(files: seq<FileEntry>, i: nat, j: nat)
    requires i < j < |files| && files[i].phase == files[j].phase
    ensures |SamePhase(files, i)| < |SamePhase(files, j)|
  {
    var a, b := SamePhase(files, i), SamePhase(files, j);
    assert j in b && j !in a;
    Subset(a, b - {j});
  }

  lemma {:induction false} Subset(a: set<nat>, b: set<nat>)
    requires a <= b
    ensures |a| <= |b|
  {
    if a != {} {
      var x :| x in a;
      Subset(a - {x}, b - {x});
    }
  }

  /** The check of the fragment paths is the numbering. */
  lemma PathsAccepted(name: string, files: seq<FileEntry>)
    ensures FragmentPathsAccepted(name, files) <==> CountedOff(name, files)
  {
    hide Numbered, CountedOff, DistinctPaths;
    NumberedIsCountedOff(name, files);
    if CountedOff(name, files) {
      CountedOffDistinct(name, files);
    }
  }

  lemma FirstIsFirst(files: seq<FileEntry>)
    ensures NodesFirst(files) <==> NodesComeFirst(files)
  {
  }

  lemma {:induction false} NodesSeenIs(observed: seq<Observation>)
    ensures NodesSeen(observed) == |NodesAmong(observed)|
  {
    if observed != [] {
      var n := |observed| - 1;
      var front := observed[..n];
      NodesSeenIs(front);
      assert NodesAmong(observed) == NodesAmong(front) + if observed[n].SawNode? then {n} else {};
    }
  }

  lemma {:induction false} EdgesSeenIs(observed: seq<Observation>)
    ensures |observed| - NodesSeen(observed) == |EdgesAmong(observed)|
  {
    if observed != [] {
      var n := |observed| - 1;
      var front := observed[..n];
      EdgesSeenIs(front);
      assert EdgesAmong(observed) == EdgesAmong(front) + if observed[n].SawEdge? then {n} else {};
    }
  }

  lemma MatchIs(m: GraphMetrics, g: GraphManifest)
    ensures MetricsMatch(m, g) <==> SoundMetric(m, g)
  {
    hide NodesSeen, NodesAmong, EdgesAmong;
    NodesSeenIs(m.observed);
    EdgesSeenIs(m.observed);
  }

  lemma SomeMatch(m: GraphMetrics, graphs: seq<GraphManifest>)
    ensures MatchesSome(m, graphs) <==> HasGraph(m, graphs)
  {
    hide MetricsMatch, SoundMetric;
    forall g | 0 <= g < |graphs|
      ensures MetricsMatch(m, graphs[g]) <==> SoundMetric(m, graphs[g])
    {
      MatchIs(m, graphs[g]);
    }
  }

  lemma MetricsAreSound(graphs: seq<GraphManifest>, metrics: seq<GraphMetrics>)
    ensures MetricsAccepted(metrics, graphs) <==> SoundMetrics(graphs, metrics)
  {
    hide MatchesSome, HasGraph;
    forall i | 0 <= i < |metrics|
      ensures MatchesSome(metrics[i], graphs) <==> HasGraph(metrics[i], graphs)
    {
      SomeMatch(metrics[i], graphs);
    }
  }

  /** What is said of one completed graph. */
  ghost predicate GraphAccepted(name: string, g: GraphManifest) {
    && g.name != "" && NodesFirst(g.files) && PhaseTotal(g.files, Nodes) == g.nodeCount && PhaseTotal(g.files, Edges) == g.edgeCount
    && g.name == name && FragmentPathsAccepted(g.name, g.files)
  }

  lemma GraphIsSound(name: string, g: GraphManifest)
    ensures GraphAccepted(name, g) <==> SoundGraph(name, g)
  {
    hide NodesFirst, NodesComeFirst, PhaseTotal, Recorded, FragmentPathsAccepted, CountedOff;
    FirstIsFirst(g.files);
    TotalIsRecorded(g.files, Nodes);
    TotalIsRecorded(g.files, Edges);
    PathsAccepted(g.name, g.files);
  }

  lemma CurrentIsSound(c: Config, ck: Checkpoint, cur: Current)
    requires SameDump(c, ck.identity)
    ensures CurrentAccepted(ck, cur, |c.sources|) <==> SoundCurrent(c, |ck.manifest.graphs|, cur)
  {
    hide NodesFirst, NodesComeFirst, PhaseTotal, Recorded, FragmentPathsAccepted, CountedOff;
    FirstIsFirst(cur.files);
    TotalIsRecorded(cur.files, Nodes);
    TotalIsRecorded(cur.files, Edges);
    PathsAccepted(cur.name, cur.files);
  }

  lemma IdentityIs(c: Config, id: Identity)
    ensures id == IdentityOf(c) <==> SameDump(c, id)
  {
    if SameDump(c, id) {
      assert id.graphs == IdentityOf(c).graphs;
    }
  }

  ghost predicate GraphsPassed(ck: Checkpoint) {
    GraphsAccepted(ck.manifest.graphs) && TargetsAccepted(ck.manifest.graphs, ck.identity.graphs)
  }

  lemma GraphsAreSound(c: Config, ck: Checkpoint)
    requires SameDump(c, ck.identity) && |ck.manifest.graphs| <= |c.sources|
    ensures GraphsPassed(ck) <==> SoundGraphs(c, ck.manifest.graphs)
  {
    hide FragmentPathsAccepted, NodesFirst, PhaseTotal, SoundGraph;
    var graphs := ck.manifest.graphs;
    forall g | 0 <= g < |graphs|
      ensures GraphAccepted(c.sources[g].name, graphs[g]) <==> SoundGraph(c.sources[g].name, graphs[g])
    {
      GraphIsSound(c.sources[g].name, graphs[g]);
    }
    assert GraphsPassed(ck) <==> forall g :: 0 <= g < |graphs| ==> GraphAccepted(c.sources[g].name, graphs[g]);
  }

  lemma AcceptedParts(ck: Checkpoint, n: nat)
    ensures CheckpointAccepted(ck, n) <==>
            && ck.manifest.graphCount == n && |ck.manifest.graphs| <= n
            && |ck.manifest.metrics| == |ck.manifest.graphs| && |ck.manifest.schemas| == |ck.manifest.graphs|
            && GraphsPassed(ck) && DistinctGraphs(ck.manifest.graphs) && MetricsAccepted(ck.manifest.metrics, ck.manifest.graphs)
            && (ck.current.Some? ==> CurrentAccepted(ck, ck.current.value, n))
  {
    hide MetricsAccepted, CurrentAccepted, DistinctGraphs, GraphsAccepted, TargetsAccepted;
  }

  lemma MetricsCount(graphs: seq<GraphManifest>, metrics: seq<GraphMetrics>)
    ensures SoundMetrics(graphs, metrics) ==> |metrics| == |graphs|
  {
  }

  /** The checks before anything is removed, in terms of the entries. */
  lemma AcceptedIsSound(c: Config, ck: Checkpoint)
    ensures ck.identity == IdentityOf(c) && CheckpointAccepted(ck, |c.sources|) <==> Sound(c, ck)
  {
    hide IdentityOf, MetricsAccepted, SoundMetrics, CurrentAccepted, SoundCurrent, GraphsPassed, SoundGraphs, SameDump, CheckpointAccepted;
    IdentityIs(c, ck.identity);
    AcceptedParts(ck, |c.sources|);
    MetricsCount(ck.manifest.graphs, ck.manifest.metrics);
    if SameDump(c, ck.identity) {
      MetricsAreSound(ck.manifest.graphs, ck.manifest.metrics);
      if ck.current.Some? {
        CurrentIsSound(c, ck, ck.current.value);
      }
      if |ck.manifest.graphs| <= |c.sources| {
        GraphsAreSound(c, ck);
      }
    }
  }

  // ----- The files, as the validator walks them -----

  ghost predicate InGraphs(graphs: seq<GraphManifest>, e: FileEntry) {
    exists g, i :: 0 <= g < |graphs| && 0 <= i < |graphs[g].files| && graphs[g].files[i] == e
  }

  lemma {:induction false} GraphFilesAre(graphs: seq<GraphManifest>, e: FileEntry)
    ensures e in GraphFiles(graphs) <==> InGraphs(graphs, e)
  {
    if graphs != [] {
      var n := |graphs| - 1;
      var front := graphs[..n];
      GraphFilesAre(front, e);
      assert forall g :: 0 <= g < n ==> front[g] == graphs[g];
      if InGraphs(front, e) {
        var g, i :| 0 <= g < |front| && 0 <= i < |front[g].files| && front[g].files[i] == e;
        assert graphs[g].files[i] == e;
      }
      if e in graphs[n].files {
        var i :| 0 <= i < |graphs[n].files| && graphs[n].files[i] == e;
      }
      if InGraphs(graphs, e) {
        var g, i :| 0 <= g < |graphs| && 0 <= i < |graphs[g].files| && graphs[g].files[i] == e;
        if g < n {
          assert front[g].files[i] == e;
        }
      }
    }
  }

  lemma ListedAre(ck: Checkpoint, e: FileEntry)
    ensures e in ListedFiles(ck) <==> Lists(ck, e)
  {
    hide GraphFiles;
    GraphFilesAre(ck.manifest.graphs, e);
  }

  lemma DistinctJoin(a: seq<FileEntry>, b: seq<FileEntry>)
    ensures DistinctPaths(a + b) <==>
            DistinctPaths(a) && DistinctPaths(b) && forall i, j :: 0 <= i < |a| && 0 <= j < |b| ==> a[i].path != b[j].path
  {
    var all := a + b;
    if DistinctPaths(all) {
      forall i, j | 0 <= i < j < |a|
        ensures a[i].path != a[j].path
      {
        assert all[i].path != all[j].path;
      }
      forall i, j | 0 <= i < j < |b|
        ensures b[i].path != b[j].path
      {
        assert all[|a| + i].path != all[|a| + j].path;
      }
      forall i, j | 0 <= i < |a| && 0 <= j < |b|
        ensures a[i].path != b[j].path
      {
        assert all[i].path != all[|a| + j].path;
      }
    }
  }

  ghost predicate OwnPaths(g: GraphManifest) {
    DistinctPaths(g.files) && forall i :: 0 <= i < |g.files| ==> g.files[i].path.Fragment? && g.files[i].path.graph == g.name
  }

  lemma {:induction false} GraphsDistinct(graphs: seq<GraphManifest>)
    requires forall g :: 0 <= g < |graphs| ==> OwnPaths(graphs[g])
    requires DistinctGraphs(graphs)
    ensures DistinctPaths(GraphFiles(graphs))
  {
    if graphs != [] {
      var n := |graphs| - 1;
      var front := graphs[..n];
      GraphsDistinct(front);
      var a, b := GraphFiles(front), graphs[n].files;
      forall i, j | 0 <= i < |a| && 0 <= j < |b|
        ensures a[i].path != b[j].path
      {
        GraphFilesAre(front, a[i]);
        var g, k :| 0 <= g < |front| && 0 <= k < |front[g].files| && front[g].files[k] == a[i];
        assert OwnPaths(graphs[g]) && OwnPaths(graphs[n]);
        assert graphs[g].name != graphs[n].name;
      }
      DistinctJoin(a, b);
    }
  }

  lemma SoundPaths(name: string, g: GraphManifest)
    requires SoundGraph(name, g)
    ensures OwnPaths(g)
  {
    hide SamePhase, Recorded;
    CountedOffDistinct(name, g.files);
  }

  lemma SoundDistinct(c: Config, ck: Checkpoint)
    requires Sound(c, ck)
    ensures DistinctPaths(ListedFiles(ck)) <==> Apart(ck)
  {
    var graphs := ck.manifest.graphs;
    forall g | 0 <= g < |graphs|
      ensures OwnPaths(graphs[g])
    {
      SoundPaths(c.sources[g].name, graphs[g]);
    }
    GraphsDistinct(graphs);
    if ck.current.Some? {
      CountedOffDistinct(ck.current.value.name, ck.current.value.files);
      hide Sound, GraphFiles;
      DistinctJoin(GraphFiles(graphs), ck.current.value.files);
      CrossPaths(graphs, ck.current.value.files);
    } else {
      assert GraphFiles(graphs) + [] == GraphFiles(graphs);
    }
  }

  lemma CrossPaths(graphs: seq<GraphManifest>, files: seq<FileEntry>)
    ensures (forall i, j :: 0 <= i < |GraphFiles(graphs)| && 0 <= j < |files| ==> GraphFiles(graphs)[i].path != files[j].path) <==>
            (forall g, i, j :: 0 <= g < |graphs| && 0 <= i < |graphs[g].files| && 0 <= j < |files| ==> graphs[g].files[i].path != files[j].path)
  {
    hide GraphFiles;
    var all := GraphFiles(graphs);
    if forall g, i, j :: 0 <= g < |graphs| && 0 <= i < |graphs[g].files| && 0 <= j < |files| ==> graphs[g].files[i].path != files[j].path {
      forall i, j | 0 <= i < |all| && 0 <= j < |files|
        ensures all[i].path != files[j].path
      {
        GraphFilesAre(graphs, all[i]);
        var g, k :| 0 <= g < |graphs| && 0 <= k < |graphs[g].files| && graphs[g].files[k] == all[i];
      }
    }
    if forall i, j :: 0 <= i < |all| && 0 <= j < |files| ==> all[i].path != files[j].path {
      forall g, i, j | 0 <= g < |graphs| && 0 <= i < |graphs[g].files| && 0 <= j < |files|
        ensures graphs[g].files[i].path != files[j].path
      {
        assert InGraphs(graphs, graphs[g].files[i]);
        GraphFilesAre(graphs, graphs[g].files[i]);
        var k :| 0 <= k < |all| && all[k] == graphs[g].files[i];
      }
    }
  }

  lemma ListedFragment(c: Config, ck: Checkpoint, e: FileEntry)
    requires Sound(c, ck) && Lists(ck, e)
    ensures e.path.Fragment?
  {
    hide SamePhase, Recorded;
  }

  /** The check of the files, in terms of the entries. */
  lemma FilesAreIntact(c: Config, disk: Disk, ck: Checkpoint)
    requires Sound(c, ck)
    ensures FilesAccepted(disk, ck) <==> IntactFiles(disk, ck)
  {
    hide Sound, DistinctPaths, Apart, ListedFiles, Lists, FilePresent, Intact, FileListed, NameOf;
    SoundDistinct(c, ck);
    AllListed(c, ck);
    AllIntact(disk, ck);
    AllNamed(disk, ck);
  }

  lemma AllListed(c: Config, ck: Checkpoint)
    requires Sound(c, ck)
    ensures forall e :: e in ListedFiles(ck) <==> Lists(ck, e)
    ensures forall e :: Lists(ck, e) ==> e.path.Fragment?
  {
    hide Sound, ListedFiles, Lists;
    forall e
      ensures e in ListedFiles(ck) <==> Lists(ck, e)
      ensures Lists(ck, e) ==> e.path.Fragment?
    {
      ListedAre(ck, e);
      if Lists(ck, e) {
        ListedFragment(c, ck, e);
      }
    }
  }

  lemma AllIntact(disk: Disk, ck: Checkpoint)
    requires forall e :: e in ListedFiles(ck) <==> Lists(ck, e)
    requires forall e :: Lists(ck, e) ==> e.path.Fragment?
    ensures (forall i :: 0 <= i < |ListedFiles(ck)| ==> FilePresent(disk, ck.identity.parquet, ListedFiles(ck)[i])) <==>
            (forall e :: Lists(ck, e) ==> Intact(disk, ck.identity.parquet, e))
  {
    hide ListedFiles, Lists;
    var files := ListedFiles(ck);
    assert forall i :: 0 <= i < |files| ==> files[i] in files;
    assert forall e :: Lists(ck, e) ==> (FilePresent(disk, ck.identity.parquet, e) <==> Intact(disk, ck.identity.parquet, e));
  }

  lemma AllNamed(disk: Disk, ck: Checkpoint)
    requires forall e :: e in ListedFiles(ck) <==> Lists(ck, e)
    requires forall e :: Lists(ck, e) ==> e.path.Fragment?
    ensures forall f :: FileListed(ck.identity.parquet, ListedFiles(ck), f) <==> exists e :: Lists(ck, e) && NameOf(ck.identity.parquet, e, f)
  {
    hide ListedFiles, Lists;
    var files, parquet := ListedFiles(ck), ck.identity.parquet;
    forall f
      ensures FileListed(parquet, files, f) <==> exists e :: Lists(ck, e) && NameOf(parquet, e, f)
    {
      if FileListed(parquet, files, f) {
        var i :| 0 <= i < |files| && (f == Final(files[i].path) || (parquet && f == Final(ParquetOf(files[i].path))));
        assert files[i] in files;
        assert Lists(ck, files[i]) && NameOf(parquet, files[i], f);
      }
      if e :| Lists(ck, e) && NameOf(parquet, e, f) {
        var i :| 0 <= i < |files| && files[i] == e;
      }
    }
  }

  /** What a resume removes is what can be left over. */
  lemma TempsAreLeftovers(ck: Checkpoint, f: FileName)
    ensures f in KnownTemps(ck) <==> Leftover(ck, f)
  {
    if ck.current.Some? {
      PhaseSizeIs(ck.current.value.files, ck.current.value.phase);
    }
  }

  lemma RemovalCleans(disk: Disk, ck: Checkpoint)
    ensures disk - (set f | f in KnownTemps(ck)) == Cleaned(disk, ck)
  {
    hide KnownTemps, Leftover;
    var temps := set f | f in KnownTemps(ck);
    forall f
      ensures f in temps <==> Leftover(ck, f)
    {
      TempsAreLeftovers(ck, f);
    }
  }
}
