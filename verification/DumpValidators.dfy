/** The validators of a resume, as the loops they are, against the conditions they decide. */
module DumpValidators {
  import opened Optional
  import opened DumpModel
  import opened DumpProtocol
  import opened DumpShards
  import opened DumpSpots
  import opened DumpDisk
  import opened DumpInvariant
  import opened DumpDiskSteps
  import opened DumpAcceptance

  // ----- Fragment lists -----

  lemma PhaseFilesGrows(files: seq<FileEntry>, i: nat, phase: Phase)
    requires i < |files|
    ensures PhaseFiles(files[..i + 1], phase) == if files[i].phase == phase then PhaseFiles(files[..i], phase) + [files[i]] else PhaseFiles(files[..i], phase)
  {
    assert files[..i + 1][..i] == files[..i];
  }

  lemma PhaseTotalGrows(files: seq<FileEntry>, i: nat, phase: Phase)
    requires i < |files|
    ensures PhaseTotal(files[..i + 1], phase) == PhaseTotal(files[..i], phase) + if files[i].phase == phase then files[i].count else 0
  {
    PhaseFilesGrows(files, i, phase);
    var before := PhaseFiles(files[..i], phase);
    assert (before + [files[i]])[..|before|] == before;
  }

  ghost predicate NumberedAt(name: string, files: seq<FileEntry>, i: nat)
    requires i < |files|
  {
    files[i].path == Fragment(name, files[i].phase, |PhaseFiles(files[..i + 1], files[i].phase)|)
  }

  lemma NumberedPrefix(name: string, files: seq<FileEntry>, i: nat, k: nat)
    requires k < i <= |files|
    ensures NumberedAt(name, files[..i], k) <==> NumberedAt(name, files, k)
  {
    assert files[..i][..k + 1] == files[..k + 1];
  }

  lemma NumberedIs(name: string, files: seq<FileEntry>, i: nat)
    requires i <= |files|
    ensures Numbered(name, files[..i]) <==> forall k :: 0 <= k < i ==> NumberedAt(name, files, k)
  {
    hide PhaseFiles;
    forall k | 0 <= k < i
      ensures NumberedAt(name, files[..i], k) <==> NumberedAt(name, files, k)
    {
      NumberedPrefix(name, files, i, k);
    }
    NumberedEach(name, files[..i]);
  }

  lemma NumberedEach(name: string, files: seq<FileEntry>)
    ensures Numbered(name, files) <==> forall k :: 0 <= k < |files| ==> NumberedAt(name, files, k)
  {
    hide PhaseFiles;
    if forall k :: 0 <= k < |files| ==> NumberedAt(name, files, k) {
      forall k | 0 <= k < |files|
        ensures files[k].path == Fragment(name, files[k].phase, |PhaseFiles(files[..k + 1], files[k].phase)|)
      {
        assert NumberedAt(name, files, k);
      }
    }
  }

  ghost predicate FreshPath(files: seq<FileEntry>, i: nat)
    requires i < |files|
  {
    forall k :: 0 <= k < i ==> files[k].path != files[i].path
  }

  lemma DistinctIs(files: seq<FileEntry>, i: nat)
    requires i <= |files|
    ensures DistinctPaths(files[..i]) <==> forall k :: 0 <= k < i ==> FreshPath(files, k)
  {
    assert forall k :: 0 <= k < i ==> files[..i][k] == files[k];
    if forall k :: 0 <= k < i ==> FreshPath(files, k) {
      forall j, k | 0 <= j < k < i
        ensures files[..i][j].path != files[..i][k].path
      {
        assert FreshPath(files, k);
      }
    }
  }

  /** Each entry can be checked when it is reached. */
  lemma PathsIs(name: string, files: seq<FileEntry>)
    ensures FragmentPathsAccepted(name, files) <==> forall k :: 0 <= k < |files| ==> NumberedAt(name, files, k) && FreshPath(files, k)
  {
    hide Numbered, DistinctPaths, NumberedAt, FreshPath;
    assert files[..|files|] == files;
    NumberedIs(name, files, |files|);
    DistinctIs(files, |files|);
  }

  /** `validateDumpCheckpointFragmentPaths`: one counter per phase, and a set of the paths seen. */
  method ValidateFragmentPaths(name: string, files: seq<FileEntry>) returns (ok: bool)
    ensures ok <==> FragmentPathsAccepted(name, files)
  {
    hide FragmentPathsAccepted, PhaseFiles;
    PathsIs(name, files);
    var nodes, edges := 0, 0;
    var seen: set<Path> := {};
    assert PhaseFiles(files[..0], Nodes) == [] && PhaseFiles(files[..0], Edges) == [] by { NoPhaseFiles(); }
    for i := 0 to |files|
      invariant nodes == |PhaseFiles(files[..i], Nodes)| && edges == |PhaseFiles(files[..i], Edges)|
      invariant seen == set k | 0 <= k < i :: files[k].path
      invariant forall k :: 0 <= k < i ==> NumberedAt(name, files, k) && FreshPath(files, k)
    {
      var e := files[i];
      PhaseFilesGrows(files, i, Nodes);
      PhaseFilesGrows(files, i, Edges);
      if e.phase == Nodes { nodes := nodes + 1; } else { edges := edges + 1; }
      if e.path != Fragment(name, e.phase, if e.phase == Nodes then nodes else edges) {
        assert !NumberedAt(name, files, i);
        return false;
      }
      if e.path in seen {
        assert !FreshPath(files, i);
        return false;
      }
      seen := seen + {e.path};
      assert NumberedAt(name, files, i) && FreshPath(files, i);
    }
    return true;
  }

  lemma NoPhaseFiles()
    ensures PhaseFiles([], Nodes) == [] && PhaseFiles([], Edges) == []
  {
  }

  /** The counting loop of the validators: totals per phase, and the first node fragment after an edge fragment. */
  method CountFragments(files: seq<FileEntry>) returns (ok: bool, nodeCount: nat, edgeCount: nat)
    ensures ok <==> NodesFirst(files)
    ensures ok ==> nodeCount == PhaseTotal(files, Nodes) && edgeCount == PhaseTotal(files, Edges)
  {
    hide PhaseTotal;
    var seenEdge := false;
    nodeCount, edgeCount := 0, 0;
    assert PhaseTotal(files[..0], Nodes) == 0 && PhaseTotal(files[..0], Edges) == 0 by { NoTotals(); }
    for i := 0 to |files|
      invariant forall j, k :: 0 <= j < k < i && files[j].phase == Edges ==> files[k].phase == Edges
      invariant seenEdge <==> exists k :: 0 <= k < i && files[k].phase == Edges
      invariant nodeCount == PhaseTotal(files[..i], Nodes) && edgeCount == PhaseTotal(files[..i], Edges)
    {
      PhaseTotalGrows(files, i, Nodes);
      PhaseTotalGrows(files, i, Edges);
      if files[i].phase == Nodes {
        if seenEdge {
          return false, nodeCount, edgeCount;
        }
        nodeCount := nodeCount + files[i].count;
      } else {
        seenEdge := true;
        edgeCount := edgeCount + files[i].count;
      }
    }
    assert files[..|files|] == files;
    ok := true;
  }

  lemma NoTotals()
    ensures PhaseTotal([], Nodes) == 0 && PhaseTotal([], Edges) == 0
  {
  }

  // ----- The checkpoint -----

  method AllCounted(files: seq<FileEntry>) returns (ok: bool)
    ensures ok <==> forall i :: 0 <= i < |files| ==> files[i].count > 0
  {
    for i := 0 to |files|
      invariant forall k :: 0 <= k < i ==> files[k].count > 0
    {
      if files[i].count <= 0 {
        return false;
      }
    }
    return true;
  }

  method ValidateCurrent(ck: Checkpoint, cur: Current, targetCount: nat) returns (ok: bool)
    requires |ck.identity.graphs| >= targetCount
    ensures ok <==> CurrentAccepted(ck, cur, targetCount)
  {
    hide NodesFirst, PhaseTotal, FragmentPathsAccepted;
    if cur.index != |ck.manifest.graphs| || cur.index >= targetCount || cur.name != ck.identity.graphs[cur.index] || cur.snapshot.None? {
      return false;
    }
    var counted := AllCounted(cur.files);
    if !counted {
      return false;
    }
    var ordered, nodeCount, edgeCount := CountFragments(cur.files);
    if !ordered || nodeCount > cur.snapshot.value.nodeCount || edgeCount > cur.snapshot.value.edgeCount {
      return false;
    }
    if cur.phase == Edges && nodeCount != cur.snapshot.value.nodeCount {
      return false;
    }
    var phaseCount := if cur.phase == Edges then edgeCount else nodeCount;
    if (phaseCount > 0) != cur.last.Some? {
      return false;
    }
    ok := ValidateFragmentPaths(cur.name, cur.files);
  }

  /** `validateDumpCheckpoint`. The identity was compared before, so it names every target. */
  method ValidateCheckpoint(ck: Checkpoint, targetCount: nat) returns (ok: bool)
    requires |ck.identity.graphs| >= targetCount
    ensures ok <==> CheckpointAccepted(ck, targetCount)
  {
    hide ManifestAccepted, FragmentPathsAccepted, CurrentAccepted;
    var m := ck.manifest;
    if m.graphCount != targetCount || |m.graphs| > targetCount || |m.metrics| != |m.graphs| || |m.schemas| != |m.graphs| {
      return false;
    }
    if !ManifestAccepted(m.(graphCount := |m.graphs|)) {
      return false;
    }
    for g := 0 to |m.graphs|
      invariant forall h :: 0 <= h < g ==> m.graphs[h].name == ck.identity.graphs[h] && FragmentPathsAccepted(m.graphs[h].name, m.graphs[h].files)
    {
      if m.graphs[g].name != ck.identity.graphs[g] {
        return false;
      }
      var paths := ValidateFragmentPaths(m.graphs[g].name, m.graphs[g].files);
      if !paths {
        return false;
      }
    }
    if ck.current.None? {
      return true;
    }
    ok := ValidateCurrent(ck, ck.current.value, targetCount);
  }

  // ----- The files -----

  /** The names a list of fragments stands for. */
  function Names(parquet: bool, files: seq<FileEntry>): set<FileName> {
    (set i | 0 <= i < |files| :: Final(files[i].path)) + if parquet then set i | 0 <= i < |files| :: Final(ParquetOf(files[i].path)) else {}
  }

  predicate AllPresent(disk: Disk, parquet: bool, files: seq<FileEntry>) {
    forall i :: 0 <= i < |files| ==> FilePresent(disk, parquet, files[i])
  }

  predicate AllFragments(files: seq<FileEntry>) {
    forall i :: 0 <= i < |files| ==> files[i].path.Fragment?
  }

  lemma NamesGrow(parquet: bool, files: seq<FileEntry>, e: FileEntry)
    ensures Names(parquet, files + [e]) == Names(parquet, files) + {Final(e.path)} + if parquet then {Final(ParquetOf(e.path))} else {}
  {
    var more := files + [e];
    assert forall i :: 0 <= i < |files| ==> more[i] == files[i];
    assert more[|files|] == e;
    forall f
      ensures f in Names(parquet, more) <==> f in Names(parquet, files) + {Final(e.path)} + (if parquet then {Final(ParquetOf(e.path))} else {})
    {
      if f in Names(parquet, files) {
        var i :| 0 <= i < |files| && (f == Final(files[i].path) || (parquet && f == Final(ParquetOf(files[i].path))));
        assert more[i] == files[i];
      }
    }
  }

  /** A new fragment repeats a name exactly when it repeats a path. */
  lemma RepeatedName(parquet: bool, files: seq<FileEntry>, e: FileEntry)
    requires AllFragments(files) && e.path.Fragment?
    ensures Final(e.path) in Names(parquet, files) <==> exists i :: 0 <= i < |files| && files[i].path == e.path
    ensures parquet ==> (Final(ParquetOf(e.path)) in Names(parquet, files) <==> exists i :: 0 <= i < |files| && files[i].path == e.path)
  {
  }

  lemma DistinctGrows(files: seq<FileEntry>, e: FileEntry)
    ensures DistinctPaths(files + [e]) <==> DistinctPaths(files) && !exists i :: 0 <= i < |files| && files[i].path == e.path
  {
    var more := files + [e];
    if DistinctPaths(more) {
      forall i, j | 0 <= i < j < |files|
        ensures files[i].path != files[j].path
      {
        assert more[i].path != more[j].path;
      }
      forall i | 0 <= i < |files|
        ensures files[i].path != e.path
      {
        assert more[i].path != more[|files|].path;
      }
    }
  }

  /** The listed files checked so far: present, distinct, and collected. */
  ghost predicate Checked(disk: Disk, parquet: bool, files: seq<FileEntry>, expected: set<FileName>) {
    && AllFragments(files)
    && DistinctPaths(files) && AllPresent(disk, parquet, files)
    && expected == {Final(CheckpointFile)} + Names(parquet, files)
  }

  ghost predicate ListFails(disk: Disk, parquet: bool, files: seq<FileEntry>) {
    !DistinctPaths(files) || !AllPresent(disk, parquet, files)
  }

  lemma CheckedGrows(disk: Disk, parquet: bool, files: seq<FileEntry>, expected: set<FileName>, e: FileEntry)
    requires Checked(disk, parquet, files, expected) && e.path.Fragment?
    ensures if Final(e.path) in expected || !FilePresent(disk, parquet, e) then ListFails(disk, parquet, files + [e])
            else Checked(disk, parquet, files + [e], expected + {Final(e.path)} + if parquet then {Final(ParquetOf(e.path))} else {})
    ensures parquet && Final(e.path) !in expected ==> Final(ParquetOf(e.path)) !in expected
  {
    hide DistinctPaths, FilePresent, Names;
    NamesGrow(parquet, files, e);
    RepeatedName(parquet, files, e);
    DistinctGrows(files, e);
    assert (files + [e])[|files|] == e;
    assert forall i :: 0 <= i < |files| ==> (files + [e])[i] == files[i];
  }

  lemma FailsAnyway(disk: Disk, parquet: bool, files: seq<FileEntry>, more: seq<FileEntry>)
    requires ListFails(disk, parquet, files)
    ensures ListFails(disk, parquet, files + more)
  {
    var all := files + more;
    assert forall i :: 0 <= i < |files| ==> all[i] == files[i];
    if !DistinctPaths(files) {
      var i, j :| 0 <= i < j < |files| && files[i].path == files[j].path;
      assert all[i].path == all[j].path;
    } else {
      var i :| 0 <= i < |files| && !FilePresent(disk, parquet, files[i]);
      assert !FilePresent(disk, parquet, all[i]);
    }
  }

  /** A list that passes, or fails, does so because of its entries. */
  lemma CheckDecides(disk: Disk, parquet: bool, before: seq<FileEntry>, files: seq<FileEntry>, expected: set<FileName>)
    requires Checked(disk, parquet, before, expected) && AllFragments(files)
    ensures !ListFails(disk, parquet, before + files) <==> DistinctPaths(before + files) && forall i :: 0 <= i < |files| ==> Intact(disk, parquet, files[i])
    ensures forall more :: Checked(disk, parquet, before + files, more) ==> !ListFails(disk, parquet, before + files)
  {
    hide DistinctPaths;
    var all := before + files;
    assert forall i :: 0 <= i < |before| ==> all[i] == before[i];
    assert forall i :: 0 <= i < |files| ==> all[|before| + i] == files[i];
    forall i | 0 <= i < |files|
      ensures FilePresent(disk, parquet, files[i]) <==> Intact(disk, parquet, files[i])
    {
    }
    if AllPresent(disk, parquet, all) {
      forall i | 0 <= i < |files|
        ensures FilePresent(disk, parquet, files[i])
      {
        assert FilePresent(disk, parquet, all[|before| + i]);
      }
    }
  }

  /** `addExpectedDumpCheckpointFiles` for one graph, after the files of `before`. */
  method AddExpected(disk: Disk, parquet: bool, files: seq<FileEntry>, expected: set<FileName>, ghost before: seq<FileEntry>)
    returns (ok: bool, expected': set<FileName>)
    requires Checked(disk, parquet, before, expected) && AllFragments(files)
    ensures ok ==> Checked(disk, parquet, before + files, expected')
    ensures !ok ==> ListFails(disk, parquet, before + files)
    ensures ok <==> DistinctPaths(before + files) && forall i :: 0 <= i < |files| ==> Intact(disk, parquet, files[i])
  {
    hide Checked, ListFails, FilePresent, Intact, DistinctPaths;
    CheckDecides(disk, parquet, before, files, expected);
    expected' := expected;
    assert before + files[..0] == before;
    for i := 0 to |files|
      invariant Checked(disk, parquet, before + files[..i], expected')
    {
      var e := files[i];
      CheckedGrows(disk, parquet, before + files[..i], expected', e);
      assert before + files[..i] + [e] == before + files[..i + 1];
      if Final(e.path) in expected' || !FilePresent(disk, parquet, e) {
        FailsAnyway(disk, parquet, before + files[..i + 1], files[i + 1..]);
        assert before + files[..i + 1] + files[i + 1..] == before + files;
        return false, expected';
      }
      expected' := expected' + {Final(e.path)} + if parquet then {Final(ParquetOf(e.path))} else {};
    }
    assert files[..|files|] == files;
    ok := true;
  }

  lemma GraphFilesGrows(graphs: seq<GraphManifest>, g: nat)
    requires g < |graphs|
    ensures GraphFiles(graphs[..g + 1]) == GraphFiles(graphs[..g]) + graphs[g].files
  {
    assert graphs[..g + 1][..g] == graphs[..g];
  }

  lemma {:induction false} GraphFilesPrefix(graphs: seq<GraphManifest>, g: nat) returns (rest: seq<FileEntry>)
    requires g <= |graphs|
    ensures GraphFiles(graphs) == GraphFiles(graphs[..g]) + rest
    decreases |graphs| - g
  {
    if g == |graphs| {
      assert graphs[..g] == graphs;
      rest := [];
    } else {
      GraphFilesGrows(graphs, g);
      rest := GraphFilesPrefix(graphs, g + 1);
      rest := graphs[g].files + rest;
    }
  }

  predicate OnlyExpected(disk: Disk, expected: set<FileName>) {
    forall f :: f in disk ==> f in expected
  }

  lemma CheckedDecides(disk: Disk, ck: Checkpoint, expected: set<FileName>)
    requires Checked(disk, ck.identity.parquet, ListedFiles(ck), expected)
    ensures OnlyExpected(disk, expected) <==> FilesAccepted(disk, ck)
  {
    hide DistinctPaths, FilePresent, ListedFiles;
    var files := ListedFiles(ck);
    forall f
      ensures f in Names(ck.identity.parquet, files) <==> FileListed(ck.identity.parquet, files, f)
    {
    }
  }

  ghost predicate ListsFragments(ck: Checkpoint) {
    && (forall g :: 0 <= g < |ck.manifest.graphs| ==> AllFragments(ck.manifest.graphs[g].files))
    && (ck.current.Some? ==> AllFragments(ck.current.value.files))
  }

  lemma PathsAreFragments(name: string, files: seq<FileEntry>)
    requires FragmentPathsAccepted(name, files)
    ensures AllFragments(files)
  {
    hide PhaseFiles;
  }

  /** An accepted checkpoint lists fragment paths only. */
  lemma AcceptedLists(ck: Checkpoint, targetCount: nat)
    requires CheckpointAccepted(ck, targetCount)
    ensures ListsFragments(ck)
  {
    hide FragmentPathsAccepted, AllFragments, ManifestAccepted, PhaseTotal;
    forall g | 0 <= g < |ck.manifest.graphs|
      ensures AllFragments(ck.manifest.graphs[g].files)
    {
      PathsAreFragments(ck.manifest.graphs[g].name, ck.manifest.graphs[g].files);
    }
    if ck.current.Some? {
      assert CurrentAccepted(ck, ck.current.value, targetCount);
      PathsAreFragments(ck.current.value.name, ck.current.value.files);
    }
  }

  lemma IntactWhenSound(c: Config, disk: Disk, ck: Checkpoint)
    ensures Sound(c, ck) ==> (FilesAccepted(disk, ck) <==> IntactFiles(disk, ck))
  {
    hide Sound, FilesAccepted, IntactFiles;
    if Sound(c, ck) {
      FilesAreIntact(c, disk, ck);
    }
  }

  /** `validateDumpCheckpointFiles`: collect the expected names, then walk the directory. */
  method ValidateFiles(disk: Disk, ck: Checkpoint, ghost c: Config) returns (ok: bool)
    requires ListsFragments(ck)
    ensures ok <==> FilesAccepted(disk, ck)
    ensures Sound(c, ck) ==> (ok <==> IntactFiles(disk, ck))
  {
    hide Sound, IntactFiles, DistinctPaths, Intact;
    IntactWhenSound(c, disk, ck);
    hide Checked, ListFails, FilesAccepted, OnlyExpected, AllFragments;
    var graphs, parquet := ck.manifest.graphs, ck.identity.parquet;
    var expected: set<FileName> := {Final(CheckpointFile)};
    ghost var currentFiles := if ck.current.Some? then ck.current.value.files else [];
    assert Checked(disk, parquet, GraphFiles(graphs[..0]), expected) by { CheckedNothing(disk, parquet); }
    for g := 0 to |graphs|
      invariant Checked(disk, parquet, GraphFiles(graphs[..g]), expected)
    {
      GraphFilesGrows(graphs, g);
      ok, expected := AddExpected(disk, parquet, graphs[g].files, expected, GraphFiles(graphs[..g]));
      if !ok {
        ghost var rest := GraphFilesPrefix(graphs, g + 1);
        FailsAnyway(disk, parquet, GraphFiles(graphs[..g + 1]), rest + currentFiles);
        assert GraphFiles(graphs[..g + 1]) + (rest + currentFiles) == ListedFiles(ck);
        FailsMeans(disk, ck);
        return false;
      }
    }
    assert graphs[..|graphs|] == graphs;
    if ck.current.Some? {
      ok, expected := AddExpected(disk, parquet, ck.current.value.files, expected, GraphFiles(graphs));
      if !ok {
        FailsMeans(disk, ck);
        return false;
      }
    } else {
      assert GraphFiles(graphs) + [] == GraphFiles(graphs);
    }
    CheckedDecides(disk, ck, expected);
    ok := WalkDirectory(disk, expected);
  }

  lemma CheckedNothing(disk: Disk, parquet: bool)
    ensures Checked(disk, parquet, GraphFiles([]), {Final(CheckpointFile)})
  {
  }

  lemma FailsMeans(disk: Disk, ck: Checkpoint)
    requires ListFails(disk, ck.identity.parquet, ListedFiles(ck))
    ensures !FilesAccepted(disk, ck)
  {
  }

  method WalkDirectory(disk: Disk, expected: set<FileName>) returns (ok: bool)
    ensures ok <==> OnlyExpected(disk, expected)
  {
    var left := disk.Keys;
    while left != {}
      invariant left <= disk.Keys
      invariant forall f :: f in disk.Keys - left ==> f in expected
      decreases |left|
    {
      var f :| f in left;
      if f !in expected {
        return false;
      }
      left := left - {f};
    }
    return true;
  }

  /** `removeKnownDumpCheckpointTemps`. */
  method RemoveKnownTemps(disk: Disk, ck: Checkpoint) returns (disk': Disk)
    ensures disk' == disk - (set f | f in KnownTemps(ck))
  {
    var paths := KnownTemps(ck);
    disk' := disk;
    for i := 0 to |paths|
      invariant disk' == disk - (set f | f in paths[..i])
    {
      assert paths[..i + 1] == paths[..i] + [paths[i]];
      disk' := disk' - {paths[i]};
    }
    assert paths[..|paths|] == paths;
  }

  // ----- Loading -----

  /**
   * `loadCompatibleDumpCheckpoint`. It returns the checkpoint exactly when the directory is one to go on with, and then has removed
   * the leftovers and nothing else. Every directory a crash can leave behind a durable checkpoint is such a directory, and the
   * cleaned one holds the checkpoint and the committed fragments and nothing else.
   */
  method LoadCompatibleCheckpoint(c: Config, disk: Disk, ghost spot: Spot, ghost schemas: seq<GraphSchema>)
    returns (loaded: Option<Checkpoint>, disk': Disk)
    ensures loaded.Some? <==> Loadable(c, disk)
    ensures loaded.Some? ==>
              && HasContent(disk, Final(CheckpointFile), CheckpointContent(loaded.value)) && Final(ManifestFile) !in disk
              && Sound(c, loaded.value) && disk' == Cleaned(disk, loaded.value) && IntactFiles(disk', loaded.value)
    ensures Resumable(c, disk, spot, schemas) ==>
              loaded == Some(CheckpointAt(c, spot, schemas)) && DiskAt(c, disk', spot, schemas, {})
  {
    hide CheckpointAccepted, FilesAccepted, KnownTemps, Resumable, DiskAt, IdentityOf, CheckpointAt, ValidSpot, Sound, IntactFiles, Cleaned;
    if Resumable(c, disk, spot, schemas) {
      ResumableMeans(c, disk, spot, schemas);
      CleanDisk(c, disk, spot, schemas);
    }
    disk' := disk;
    if Final(ManifestFile) in disk || Final(CheckpointFile) !in disk || !disk[Final(CheckpointFile)].CheckpointContent? {
      return None, disk;
    }
    var ck := disk[Final(CheckpointFile)].checkpoint;
    AcceptedIsSound(c, ck);
    if ck.identity != IdentityOf(c) {
      return None, disk;
    }
    assert |ck.identity.graphs| == |c.sources| by { IdentityCount(c); }
    var ok := ValidateCheckpoint(ck, |c.sources|);
    if !ok {
      return None, disk;
    }
    disk' := RemoveKnownTemps(disk, ck);
    AcceptedLists(ck, |c.sources|);
    RemovalCleans(disk, ck);
    ok := ValidateFiles(disk', ck, c);
    loaded := if ok then Some(ck) else None;
  }

  lemma IdentityCount(c: Config)
    ensures |IdentityOf(c).graphs| == |c.sources|
  {
  }

  lemma ResumableMeans(c: Config, disk: Disk, spot: Spot, schemas: seq<GraphSchema>)
    requires Resumable(c, disk, spot, schemas)
    ensures ValidSpot(c, spot) && HasContent(disk, Final(CheckpointFile), CheckpointContent(CheckpointAt(c, spot, schemas)))
    ensures Final(ManifestFile) !in disk
    ensures CheckpointAt(c, spot, schemas).identity == IdentityOf(c) && CheckpointAccepted(CheckpointAt(c, spot, schemas), |c.sources|)
  {
    hide CheckpointAccepted, IdentityOf, ManifestAt, CurrentAt, Holds, Only, ValidConfig;
    ShardSizeAt(c, spot);
    AcceptsCheckpoint(c, spot, schemas);
    NoManifest(c, disk, spot, schemas, Temps(c, spot));
  }

  lemma CleanDisk(c: Config, disk: Disk, spot: Spot, schemas: seq<GraphSchema>)
    requires Resumable(c, disk, spot, schemas)
    ensures ValidSpot(c, spot)
    ensures var disk' := disk - (set f | f in KnownTemps(CheckpointAt(c, spot, schemas)));
            DiskAt(c, disk', spot, schemas, {}) && FilesAccepted(disk', CheckpointAt(c, spot, schemas))
  {
    hide CheckpointAt, KnownTemps, Holds, Only, ValidConfig, FilesAccepted, Temps;
    ShardSizeAt(c, spot);
    TempsAreKnown(c, spot, schemas);
    var disk' := disk - Temps(c, spot);
    DiskChange(c, disk, disk', spot, schemas, Temps(c, spot), {});
    assert {Final(CheckpointFile)} + {} == {Final(CheckpointFile)};
    AcceptsFiles(c, disk', spot, schemas);
  }
}
