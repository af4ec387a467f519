/** What a finished directory says, row by row and in terms of the source alone. */
module DumpContents {
  import opened Optional
  import opened DumpModel
  import opened DumpProtocol
  import opened DumpShards
  import opened DumpSpots
  import opened DumpDisk
  import opened DumpInvariant
  import opened DumpSteps
  import opened DumpRuns
  import opened DumpTheorems
  import opened DumpProgress
  import opened DumpSchema

  // ----- A record and its row -----

  /** A relationship without a kind is written with the empty string for its kind. */
  function WrittenKind(kind: Option<Kind>): Kind {
    match kind
    case Some(k) => k
    case None => ""
  }

  /** The record of a row: IDs, endpoints and kinds as they are, properties scrubbed. */
  ghost predicate Copies(c: Config, item: Item, row: Row) {
    && item.props == c.scrub(row.props).0
    && (row.NodeRow? ==> item.NodeItem? && item.id == row.id && forall k :: k in item.kinds <==> k in row.kinds)
    && (row.EdgeRow? ==> item.EdgeItem? && item.start == row.start && item.end == row.end && item.kind == WrittenKind(row.kind))
  }

  /** What the metrics are told about a row. */
  ghost predicate Reports(o: Observation, row: Row) {
    && (row.NodeRow? ==> o.SawNode? && o.id == row.id && forall k :: k in o.kinds <==> k in row.kinds)
    && (row.EdgeRow? ==> o == SawEdge(row.start, row.end, WrittenKind(row.kind)))
  }

  // ----- Sums of action counts -----

  function SumOf(values: seq<nat>): nat {
    if values == [] then 0 else SumOf(values[..|values| - 1]) + values[|values| - 1]
  }

  /** Each counter of `total` is the sum of that counter. */
  ghost predicate SumsOf(all: seq<Counts>, total: Counts) {
    && total.preserve == SumOf(seq(|all|, i requires 0 <= i < |all| => all[i].preserve))
    && total.pseudonymize == SumOf(seq(|all|, i requires 0 <= i < |all| => all[i].pseudonymize))
    && total.redact == SumOf(seq(|all|, i requires 0 <= i < |all| => all[i].redact))
    && total.shift == SumOf(seq(|all|, i requires 0 <= i < |all| => all[i].shift))
  }

  /** The counts are the sums of what the scrubber counted for the properties of each row. */
  ghost predicate AddsUp(c: Config, rows: seq<Row>, counts: Counts) {
    SumsOf(seq(|rows|, i requires 0 <= i < |rows| => c.scrub(rows[i].props).1), counts)
  }

  // ----- The fragments of one phase -----

  /** The records of fragment `i`, as a reader of the directory finds them. */
  function Lines(disk: Disk, name: string, phase: Phase, i: nat): seq<Item> {
    var f := Final(Fragment(name, phase, i));
    if f in disk && disk[f].JsonLines? then disk[f].items else []
  }

  /** `n` fragments of `size` records each, but for the last one. */
  predicate FitsIn(total: nat, size: nat, n: nat) {
    if n == 0 then total == 0 else (n - 1) * size < total <= n * size
  }

  /** The rows number `(i - 1) * size` and so on, up to `size` of them. */
  function Slice(rows: seq<Row>, size: nat, i: nat): seq<Row>
    requires 0 < i && (i - 1) * size <= |rows|
  {
    if |rows| - (i - 1) * size < size then rows[(i - 1) * size..] else rows[(i - 1) * size..(i - 1) * size + size]
  }

  /** The fragments are numbered from 1, there are no others, and fragment `i` holds the records of its slice of the rows, in order. */
  ghost predicate Sharded(c: Config, disk: Disk, name: string, phase: Phase, rows: seq<Row>, n: nat) {
    && FitsIn(|rows|, c.shardSize, n)
    && (forall i: nat :: Final(Fragment(name, phase, i)) in disk <==> 1 <= i <= n)
    && (forall i: nat :: Final(ParquetFragment(name, phase, i)) in disk <==> c.parquet && 1 <= i <= n)
    && (forall i: nat :: 1 <= i <= n ==> HoldsSlice(c, disk, name, phase, rows, i))
  }

  ghost predicate HoldsSlice(c: Config, disk: Disk, name: string, phase: Phase, rows: seq<Row>, i: nat) {
    && 0 < i && (i - 1) * c.shardSize < |rows|
    && Final(Fragment(name, phase, i)) in disk && disk[Final(Fragment(name, phase, i))].JsonLines?
    && CopiesAll(c, Lines(disk, name, phase, i), Slice(rows, c.shardSize, i))
    && (c.parquet ==> Final(ParquetFragment(name, phase, i)) in disk && disk[Final(ParquetFragment(name, phase, i))] == ParquetRows(Lines(disk, name, phase, i)))
  }

  ghost predicate CopiesAll(c: Config, items: seq<Item>, rows: seq<Row>) {
    |items| == |rows| && forall r :: 0 <= r < |rows| ==> Copies(c, items[r], rows[r])
  }

  // ----- The manifest -----

  /** The entry of fragment `i`. */
  ghost predicate Lists(c: Config, disk: Disk, name: string, phase: Phase, rows: seq<Row>, i: nat, e: FileEntry) {
    && 0 < i && (i - 1) * c.shardSize <= |rows|
    && e.phase == phase && e.path == Fragment(name, phase, i)
    && e.digest == Lines(disk, name, phase, i) && e.count == |Slice(rows, c.shardSize, i)|
    && AddsUp(c, Slice(rows, c.shardSize, i), e.counts)
  }

  /** The entry of a graph: its counts, and its node fragments followed by its relationship fragments. */
  ghost predicate ListsGraph(c: Config, disk: Disk, s: GraphSource, g: GraphManifest, n: nat, e: nat) {
    && g.name == s.name && g.nodeCount == |s.nodes| && g.edgeCount == |s.edges|
    && AddsUp(c, s.nodes, g.nodeCounts) && AddsUp(c, s.edges, g.edgeCounts)
    && |g.files| == n + e
    && (forall i: nat :: i < n ==> Lists(c, disk, s.name, Nodes, s.nodes, i + 1, g.files[i]))
    && (forall i: nat :: n <= i < n + e ==> Lists(c, disk, s.name, Edges, s.edges, i - n + 1, g.files[i]))
  }

  /** The metrics are computed from the nodes and then the relationships, in the order of the source. */
  ghost predicate ReportsGraph(s: GraphSource, m: GraphMetrics) {
    && m.name == s.name && |m.observed| == |s.nodes| + |s.edges|
    && (forall i :: 0 <= i < |s.nodes| ==> Reports(m.observed[i], s.nodes[i]))
    && (forall i :: |s.nodes| <= i < |s.nodes| + |s.edges| ==> Reports(m.observed[i], s.edges[i - |s.nodes|]))
  }

  ghost predicate NodeHas(row: Row, k: Kind) {
    row.NodeRow? && k in row.kinds
  }

  ghost predicate EdgeHas(row: Row, k: Kind) {
    row.EdgeRow? && row.kind == Some(k)
  }

  /** The schema has the kinds of the nodes but for the empty one, and those of the relationships; the empty one may be missing there. */
  ghost predicate NamesKinds(s: GraphSource, schema: GraphSchema) {
    && schema.name == s.name
    && (forall k :: k in schema.nodeKinds <==> k != "" && exists i :: 0 <= i < |s.nodes| && NodeHas(s.nodes[i], k))
    && (forall k :: k in schema.edgeKinds ==> exists i :: 0 <= i < |s.edges| && EdgeHas(s.edges[i], k))
    && (forall k, i :: 0 <= i < |s.edges| && EdgeHas(s.edges[i], k) && k != "" ==> k in schema.edgeKinds)
  }

  /** One graph of a finished directory. */
  ghost predicate TellsGraph(c: Config, disk: Disk, m: Manifest, h: nat) {
    && h < |c.sources| && h < |m.graphs| && h < |m.schemas| && h < |m.metrics|
    && (exists n: nat, e: nat ::
          && Sharded(c, disk, c.sources[h].name, Nodes, c.sources[h].nodes, n)
          && Sharded(c, disk, c.sources[h].name, Edges, c.sources[h].edges, e)
          && ListsGraph(c, disk, c.sources[h], m.graphs[h], n, e))
    && ReportsGraph(c.sources[h], m.metrics[h])
    && NamesKinds(c.sources[h], m.schemas[h])
  }

  ghost predicate OneOfTheGraphs(c: Config, path: Path) {
    && (path.Fragment? || (c.parquet && path.ParquetFragment?))
    && exists h :: 0 <= h < |c.sources| && path.graph == c.sources[h].name
  }

  /** A finished directory: the manifest, fragments of the graphs and nothing else, and every graph is told in full. */
  ghost predicate Tells(c: Config, disk: Disk, m: Manifest) {
    && HasContent(disk, Final(ManifestFile), ManifestContent(m))
    && (forall f :: f in disk ==> f == Final(ManifestFile) || (f.Final? && OneOfTheGraphs(c, f.path)))
    && m.graphCount == |m.graphs| == |m.schemas| == |m.metrics| == |c.sources|
    && (forall h: nat :: h < |c.sources| ==> TellsGraph(c, disk, m, h))
    && SumsOf(seq(|m.graphs|, h requires 0 <= h < |m.graphs| => m.graphs[h].nodeCounts), m.nodeTotals)
    && SumsOf(seq(|m.graphs|, h requires 0 <= h < |m.graphs| => m.graphs[h].edgeCounts), m.edgeTotals)
  }

  // ----- Rows and records -----

  lemma ItemCopies(c: Config, row: Row)
    requires ValidConfig(c)
    ensures Copies(c, ItemOf(c, row), row) && Reports(Observe(ItemOf(c, row)), row)
  {
  }

  lemma ItemsCopy(c: Config, rows: seq<Row>)
    requires ValidConfig(c)
    ensures CopiesAll(c, ItemsOf(c, rows), rows)
  {
    hide Copies, ItemOf, ValidConfig;
    forall r | 0 <= r < |rows|
      ensures Copies(c, ItemsOf(c, rows)[r], rows[r])
    {
      ItemCopies(c, rows[r]);
    }
  }

  lemma SumMore(values: seq<nat>, more: seq<nat>, v: nat)
    requires more == values + [v]
    ensures SumOf(more) == SumOf(values) + v
  {
    assert more[..|more| - 1] == values;
  }

  lemma SumsOne(all: seq<Counts>, one: Counts, total: Counts)
    requires SumsOf(all, total)
    ensures SumsOf(all + [one], total.Plus(one))
  {
    hide SumOf;
    var more := all + [one];
    SumMore(seq(|all|, i requires 0 <= i < |all| => all[i].preserve), seq(|more|, i requires 0 <= i < |more| => more[i].preserve), one.preserve);
    SumMore(seq(|all|, i requires 0 <= i < |all| => all[i].pseudonymize), seq(|more|, i requires 0 <= i < |more| => more[i].pseudonymize), one.pseudonymize);
    SumMore(seq(|all|, i requires 0 <= i < |all| => all[i].redact), seq(|more|, i requires 0 <= i < |more| => more[i].redact), one.redact);
    SumMore(seq(|all|, i requires 0 <= i < |all| => all[i].shift), seq(|more|, i requires 0 <= i < |more| => more[i].shift), one.shift);
  }

  lemma {:induction false} CountsAddUp(c: Config, rows: seq<Row>)
    ensures AddsUp(c, rows, CountAll(c, rows))
  {
    if rows != [] {
      hide SumsOf;
      var n := |rows| - 1;
      var front := rows[..n];
      CountsAddUp(c, front);
      var counted := seq(n, i requires 0 <= i < n => c.scrub(front[i].props).1);
      SumsOne(counted, c.scrub(rows[n].props).1, CountAll(c, front));
      assert counted + [c.scrub(rows[n].props).1] == seq(|rows|, i requires 0 <= i < |rows| => c.scrub(rows[i].props).1);
    }
  }

  lemma NothingSums()
    ensures SumsOf([], ZERO)
  {
  }

  function GraphCounts(c: Config, phase: Phase, k: nat): seq<Counts>
    requires k <= |c.sources|
  {
    seq(k, h requires 0 <= h < k => CountAll(c, c.sources[h].Rows(phase)))
  }

  lemma {:induction false} TotalsAddUp(c: Config, phase: Phase, k: nat)
    requires k <= |c.sources|
    ensures SumsOf(GraphCounts(c, phase, k), Totals(c, phase, k))
  {
    hide CountAll, SumsOf;
    if k == 0 {
      NothingSums();
      assert GraphCounts(c, phase, k) == [];
    } else {
      TotalsAddUp(c, phase, k - 1);
      var last := CountAll(c, c.sources[k - 1].Rows(phase));
      SumsOne(GraphCounts(c, phase, k - 1), last, Totals(c, phase, k - 1));
      assert GraphCounts(c, phase, k - 1) + [last] == GraphCounts(c, phase, k);
    }
  }

  // ----- Shards are slices -----

  lemma {:induction false} CutIs(n: nat, size: nat, j: nat)
    ensures Cut(n, size, j) == if j * size < n then j * size else n
  {
    if j > 0 {
      CutIs(n, size, j - 1);
      assert j * size == (j - 1) * size + size;
    }
  }

  lemma CountFits(total: nat, size: nat)
    requires 0 < size
    ensures FitsIn(total, size, ShardCount(total, size))
  {
    var n := ShardCount(total, size);
    CutFull(total, size, n);
    CutIs(total, size, n);
    if n > 0 {
      CutFull(total, size, n - 1);
      CutIs(total, size, n - 1);
    }
  }

  lemma ShardIsSlice(rows: seq<Row>, size: nat, j: nat)
    requires 0 < size && j < ShardCount(|rows|, size)
    ensures j * size < |rows| && ShardRows(rows, size, j) == Slice(rows, size, j + 1)
  {
    CutFull(|rows|, size, j);
    CutIs(|rows|, size, j);
    CutIs(|rows|, size, j + 1);
    assert (j + 1) * size == j * size + size;
  }

  // ----- The directory -----

  lemma NamesDiffer(c: Config, g: nat, h: nat)
    requires ValidConfig(c) && g < |c.sources| && h < |c.sources| && c.sources[g].name == c.sources[h].name
    ensures g == h
  {
  }

  /** A fragment name stands for a committed shard exactly when its number is one of them. */
  lemma CommittedIff(c: Config, h: nat, path: Path)
    requires ValidConfig(c) && h < |c.sources| && (path.Fragment? || path.ParquetFragment?) && path.graph == c.sources[h].name
    ensures CommittedName(c, Between(|c.sources|), Final(path)) <==>
            (path.Fragment? || c.parquet) && 1 <= path.shard <= Shards(c, c.sources[h], path.phase)
  {
    var spot := Between(|c.sources|);
    if CommittedName(c, spot, Final(path)) {
      var g: nat :| CommittedPath(c, spot, path, g);
      NamesDiffer(c, g, h);
    }
    if (path.Fragment? || c.parquet) && 1 <= path.shard <= Shards(c, c.sources[h], path.phase) {
      assert CommittedPath(c, spot, path, h);
    }
  }

  lemma FinishedHas(c: Config, disk: Disk, schemas: seq<GraphSchema>, f: FileName)
    requires ValidConfig(c) && Finished(c, disk, schemas) && f.Final? && f.path != ManifestFile
    ensures f in disk <==> CommittedName(c, Between(|c.sources|), f)
  {
    hide CommittedName, Holds, ValidConfig, ManifestAt;
  }

  lemma FinishedStored(c: Config, disk: Disk, schemas: seq<GraphSchema>, h: nat, phase: Phase, j: nat)
    requires ValidConfig(c) && Finished(c, disk, schemas) && h < |c.sources| && j < Shards(c, c.sources[h], phase)
    ensures Stored(c, disk, h, phase, j)
  {
    hide CommittedName, ValidConfig, ManifestAt, Stored;
    assert DoneShards(c, Between(|c.sources|), h, phase) == Shards(c, c.sources[h], phase);
  }

  lemma FinishedSlice(c: Config, disk: Disk, schemas: seq<GraphSchema>, h: nat, phase: Phase, i: nat)
    requires ValidConfig(c) && Finished(c, disk, schemas) && h < |c.sources| && 1 <= i <= Shards(c, c.sources[h], phase)
    ensures HoldsSlice(c, disk, c.sources[h].name, phase, c.sources[h].Rows(phase), i)
    ensures Lines(disk, c.sources[h].name, phase, i) == EntryOf(c, h, phase, i - 1).digest
  {
    hide Finished, ValidConfig, ShardRows, Slice, ItemsOf, CopiesAll, CountAll, ShardCount;
    ShardSizePositive(c);
    FinishedStored(c, disk, schemas, h, phase, i - 1);
    var rows := c.sources[h].Rows(phase);
    ShardIsSlice(rows, c.shardSize, i - 1);
    ItemsCopy(c, ShardRows(rows, c.shardSize, i - 1));
  }

  lemma FinishedSharded(c: Config, disk: Disk, schemas: seq<GraphSchema>, h: nat, phase: Phase)
    requires ValidConfig(c) && Finished(c, disk, schemas) && h < |c.sources|
    ensures Sharded(c, disk, c.sources[h].name, phase, c.sources[h].Rows(phase), Shards(c, c.sources[h], phase))
  {
    ShardSizePositive(c);
    hide Finished, ValidConfig, HoldsSlice, CommittedName, ShardCount, FitsIn;
    var name, rows, n := c.sources[h].name, c.sources[h].Rows(phase), Shards(c, c.sources[h], phase);
    CountFits(|rows|, c.shardSize);
    forall i: nat
      ensures Final(Fragment(name, phase, i)) in disk <==> 1 <= i <= n
      ensures Final(ParquetFragment(name, phase, i)) in disk <==> c.parquet && 1 <= i <= n
    {
      FinishedHas(c, disk, schemas, Final(Fragment(name, phase, i)));
      FinishedHas(c, disk, schemas, Final(ParquetFragment(name, phase, i)));
      CommittedIff(c, h, Fragment(name, phase, i));
      CommittedIff(c, h, ParquetFragment(name, phase, i));
    }
    forall i: nat | 1 <= i <= n
      ensures HoldsSlice(c, disk, name, phase, rows, i)
    {
      FinishedSlice(c, disk, schemas, h, phase, i);
    }
  }

  lemma EntryFacts(c: Config, name: string, phase: Phase, rows: seq<Row>, j: nat)
    requires 0 < c.shardSize && j < ShardCount(|rows|, c.shardSize)
    ensures j * c.shardSize <= |rows|
    ensures var e := ShardEntry(c, name, phase, rows, j);
            && e.phase == phase && e.path == Fragment(name, phase, j + 1) && e.count == |Slice(rows, c.shardSize, j + 1)|
            && AddsUp(c, Slice(rows, c.shardSize, j + 1), e.counts)
  {
    hide ItemsOf, AddsUp, CountAll, Slice, ShardCount, ShardRows;
    ShardIsSlice(rows, c.shardSize, j);
    CountsAddUp(c, ShardRows(rows, c.shardSize, j));
  }

  lemma FinishedEntry(c: Config, disk: Disk, schemas: seq<GraphSchema>, h: nat, phase: Phase, i: nat)
    requires ValidConfig(c) && Finished(c, disk, schemas) && h < |c.sources| && 1 <= i <= Shards(c, c.sources[h], phase)
    ensures Lists(c, disk, c.sources[h].name, phase, c.sources[h].Rows(phase), i, EntryOf(c, h, phase, i - 1))
  {
    hide Finished, ValidConfig, HoldsSlice, ShardEntry, Slice, AddsUp, Lines, ShardCount;
    ShardSizePositive(c);
    FinishedSlice(c, disk, schemas, h, phase, i);
    EntryFacts(c, c.sources[h].name, phase, c.sources[h].Rows(phase), i - 1);
  }

  lemma FilesAt(c: Config, h: nat, i: nat)
    requires 0 < c.shardSize && h < |c.sources|
    ensures var s, n, e, files := c.sources[h], Shards(c, c.sources[h], Nodes), Shards(c, c.sources[h], Edges), AllFiles(c, c.sources[h]);
            |files| == n + e && (i < n ==> files[i] == EntryOf(c, h, Nodes, i)) && (n <= i < n + e ==> files[i] == EntryOf(c, h, Edges, i - n))
  {
    hide ShardEntry, ShardCount;
  }

  lemma FinishedFile(c: Config, disk: Disk, schemas: seq<GraphSchema>, h: nat, i: nat)
    requires ValidConfig(c) && Finished(c, disk, schemas) && h < |c.sources| && i < |AllFiles(c, c.sources[h])|
    ensures var s, n := c.sources[h], Shards(c, c.sources[h], Nodes);
            && (i < n ==> Lists(c, disk, s.name, Nodes, s.nodes, i + 1, AllFiles(c, s)[i]))
            && (n <= i ==> Lists(c, disk, s.name, Edges, s.edges, i - n + 1, AllFiles(c, s)[i]))
  {
    hide Finished, ValidConfig, Lists, EntryOf, AllFiles, Shards;
    ShardSizePositive(c);
    FilesAt(c, h, i);
    var n := Shards(c, c.sources[h], Nodes);
    if i < n {
      FinishedEntry(c, disk, schemas, h, Nodes, i + 1);
    } else {
      FinishedEntry(c, disk, schemas, h, Edges, i - n + 1);
    }
  }

  lemma FinishedLists(c: Config, disk: Disk, schemas: seq<GraphSchema>, h: nat)
    requires ValidConfig(c) && Finished(c, disk, schemas) && h < |c.sources|
    ensures var s := c.sources[h]; ListsGraph(c, disk, s, ExpectedGraph(c, s), Shards(c, s, Nodes), Shards(c, s, Edges))
  {
    hide Finished, ValidConfig, Lists, AddsUp, CountAll, AllFiles, Shards;
    ShardSizePositive(c);
    var s := c.sources[h];
    FilesAt(c, h, 0);
    CountsAddUp(c, s.nodes);
    CountsAddUp(c, s.edges);
    var n, files := Shards(c, s, Nodes), AllFiles(c, s);
    forall i: nat | i < |files|
      ensures i < n ==> Lists(c, disk, s.name, Nodes, s.nodes, i + 1, files[i])
      ensures n <= i ==> Lists(c, disk, s.name, Edges, s.edges, i - n + 1, files[i])
    {
      FinishedFile(c, disk, schemas, h, i);
    }
  }

  lemma FinishedReports(c: Config, s: GraphSource)
    requires ValidConfig(c)
    ensures ReportsGraph(s, ExpectedMetrics(c, s))
  {
    hide Reports, ItemOf, ValidConfig;
    var m := ExpectedMetrics(c, s);
    forall i | 0 <= i < |s.nodes|
      ensures Reports(m.observed[i], s.nodes[i])
    {
      ItemCopies(c, s.nodes[i]);
    }
    forall i | |s.nodes| <= i < |s.nodes| + |s.edges|
      ensures Reports(m.observed[i], s.edges[i - |s.nodes|])
    {
      ItemCopies(c, s.edges[i - |s.nodes|]);
    }
  }

  // ----- Kinds -----

  lemma NodeKindsAre(c: Config, h: nat, k: Kind)
    requires ValidConfig(c) && h < |c.sources|
    ensures k in KindsOfRows(c, c.sources[h].nodes) <==> k != "" && exists i :: 0 <= i < |c.sources[h].nodes| && NodeHas(c.sources[h].nodes[i], k)
  {
    var rows := c.sources[h].nodes;
    SourceValid(c, h);
    if k in KindsOfRows(c, rows) {
      var i :| 0 <= i < |rows| && k in ScannedKinds(c, rows[i]);
      assert NodeHas(rows[i], k);
    }
    if k != "" && exists i :: 0 <= i < |rows| && NodeHas(rows[i], k) {
      var i :| 0 <= i < |rows| && NodeHas(rows[i], k);
      assert k in ScannedKinds(c, rows[i]);
    }
  }

  lemma EdgeKindsAre(c: Config, h: nat, k: Kind)
    requires ValidConfig(c) && h < |c.sources|
    ensures k in KindsOfRows(c, c.sources[h].edges) <==> exists i :: 0 <= i < |c.sources[h].edges| && EdgeHas(c.sources[h].edges[i], k)
  {
    var rows := c.sources[h].edges;
    SourceValid(c, h);
    if k in KindsOfRows(c, rows) {
      var i :| 0 <= i < |rows| && k in ScannedKinds(c, rows[i]);
      assert EdgeHas(rows[i], k);
    }
    if i :| 0 <= i < |rows| && EdgeHas(rows[i], k) {
      assert k in ScannedKinds(c, rows[i]);
    }
  }

  lemma FinishedKinds(c: Config, h: nat, schema: GraphSchema)
    requires ValidConfig(c) && h < |c.sources| && SchemaFits(c, c.sources[h], schema)
    ensures NamesKinds(c.sources[h], schema)
  {
    hide ValidConfig, KindsOfRows, NodeHas, EdgeHas, CanLose;
    var s := c.sources[h];
    assert s.edges[..|s.edges|] == s.edges;
    forall k
      ensures k in schema.nodeKinds <==> k != "" && exists i :: 0 <= i < |s.nodes| && NodeHas(s.nodes[i], k)
    {
      NodeKindsAre(c, h, k);
    }
    forall k
      ensures k in schema.edgeKinds ==> exists i :: 0 <= i < |s.edges| && EdgeHas(s.edges[i], k)
      ensures k != "" && (exists i :: 0 <= i < |s.edges| && EdgeHas(s.edges[i], k)) ==> k in schema.edgeKinds
    {
      EdgeKindsAre(c, h, k);
    }
  }

  // ----- The theorem -----

  lemma FinishedTellsGraph(c: Config, disk: Disk, schemas: seq<GraphSchema>, h: nat)
    requires ValidConfig(c) && Finished(c, disk, schemas) && SchemasFit(c, schemas, |c.sources|) && h < |c.sources|
    ensures TellsGraph(c, disk, ManifestAt(c, |c.sources|, schemas), h)
  {
    hide ValidConfig, Finished, ListsGraph, Sharded, ReportsGraph, NamesKinds, SchemaFits, ExpectedGraph, ExpectedMetrics, Totals, Shards;
    ShardSizePositive(c);
    var s := c.sources[h];
    FinishedSharded(c, disk, schemas, h, Nodes);
    FinishedSharded(c, disk, schemas, h, Edges);
    FinishedLists(c, disk, schemas, h);
    FinishedReports(c, s);
    FinishedKinds(c, h, schemas[h]);
  }

  lemma FinishedNames(c: Config, disk: Disk, schemas: seq<GraphSchema>, f: FileName)
    requires ValidConfig(c) && Finished(c, disk, schemas) && f in disk
    ensures f == Final(ManifestFile) || (f.Final? && OneOfTheGraphs(c, f.path))
  {
    hide ManifestAt, Holds, ValidConfig;
    if f != Final(ManifestFile) {
      var h: nat :| CommittedPath(c, Between(|c.sources|), f.path, h);
    }
  }

  lemma FinishedTotals(c: Config, schemas: seq<GraphSchema>)
    requires 0 < c.shardSize
    ensures var m := ManifestAt(c, |c.sources|, schemas);
            && SumsOf(seq(|m.graphs|, h requires 0 <= h < |m.graphs| => m.graphs[h].nodeCounts), m.nodeTotals)
            && SumsOf(seq(|m.graphs|, h requires 0 <= h < |m.graphs| => m.graphs[h].edgeCounts), m.edgeTotals)
  {
    hide SumsOf, Totals, CountAll, AllFiles, ExpectedMetrics;
    var n, m := |c.sources|, ManifestAt(c, |c.sources|, schemas);
    TotalsAddUp(c, Nodes, n);
    TotalsAddUp(c, Edges, n);
    assert GraphCounts(c, Nodes, n) == seq(|m.graphs|, h requires 0 <= h < |m.graphs| => m.graphs[h].nodeCounts);
    assert GraphCounts(c, Edges, n) == seq(|m.graphs|, h requires 0 <= h < |m.graphs| => m.graphs[h].edgeCounts);
  }

  lemma FinishedTells(c: Config, disk: Disk, schemas: seq<GraphSchema>)
    requires ValidConfig(c) && Finished(c, disk, schemas) && SchemasFit(c, schemas, |c.sources|)
    ensures Tells(c, disk, ManifestAt(c, |c.sources|, schemas))
  {
    ShardSizePositive(c);
    FinishedOf(c, disk, schemas);
    hide ValidConfig, Finished, TellsGraph, SumsOf, ExpectedGraph, ExpectedMetrics, Totals, SchemaFits, OneOfTheGraphs;
    FinishedTotals(c, schemas);
    forall h: nat | h < |c.sources|
      ensures TellsGraph(c, disk, ManifestAt(c, |c.sources|, schemas), h)
    {
      FinishedTellsGraph(c, disk, schemas, h);
    }
    forall f | f in disk
      ensures f == Final(ManifestFile) || (f.Final? && OneOfTheGraphs(c, f.path))
    {
      FinishedNames(c, disk, schemas, f);
    }
  }

  lemma DoneTells(c: Config, w: World)
    requires ValidConfig(c) && Good(c, w) && w.proc.Some? && w.proc.value.pc.Done?
    ensures exists m :: Tells(c, w.disk, m)
  {
    hide ValidConfig, Good, Finished, SchemasFit, Tells, ManifestAt;
    DoneIsFinished(c, w);
    var schemas :| SchemasFit(c, schemas, |c.sources|) && Finished(c, w.disk, schemas);
    ShardSizePositive(c);
    FinishedTells(c, w.disk, schemas);
  }

  /** Whatever crashed and was resumed on the way: a run that is done leaves a directory that tells the whole source, row by row. */
  lemma RunTellsSource(c: Config, run: seq<World>, i: nat)
    requires ValidConfig(c) && Run(c, run) && i < |run| && run[i].proc.Some? && run[i].proc.value.pc.Done?
    ensures exists m :: Tells(c, run[i].disk, m)
  {
    hide ValidConfig, Good, Tells, Run;
    RunGood(c, run, i);
    DoneTells(c, run[i]);
  }

  /** Counted over all fragments of a phase, the record of row `k` is number `k`. */
  lemma RowIsThere(c: Config, disk: Disk, name: string, phase: Phase, rows: seq<Row>, n: nat, k: nat)
    requires 0 < c.shardSize && Sharded(c, disk, name, phase, rows, n) && k < |rows|
    ensures var lines := Lines(disk, name, phase, k / c.shardSize + 1);
            k / c.shardSize < n && k % c.shardSize < |lines| && Copies(c, lines[k % c.shardSize], rows[k])
  {
    hide Copies;
    var size := c.shardSize;
    var j, r := k / size, k % size;
    assert k == j * size + r;
    FitsQuotient(|rows|, size, n, j, r);
    assert HoldsSlice(c, disk, name, phase, rows, j + 1);
    assert Slice(rows, size, j + 1)[r] == rows[k];
  }

  lemma FitsQuotient(total: nat, size: nat, n: nat, j: nat, r: nat)
    requires FitsIn(total, size, n) && j * size + r < total && r < size
    ensures j < n
  {
    assert j >= n ==> j * size >= n * size;
  }

  /** The manifest of an uninterrupted dump names every relationship kind, the empty one included. */
  ghost predicate NamesAllKinds(s: GraphSource, schema: GraphSchema) {
    forall k :: k in schema.edgeKinds <==> exists i :: 0 <= i < |s.edges| && EdgeHas(s.edges[i], k)
  }

  lemma ExpectedNames(c: Config, h: nat)
    requires ValidConfig(c) && h < |c.sources|
    ensures NamesAllKinds(c.sources[h], ExpectedSchema(c, c.sources[h]))
  {
    hide ValidConfig, KindsOfRows, EdgeHas;
    forall k
      ensures k in KindsOfRows(c, c.sources[h].edges) <==> exists i :: 0 <= i < |c.sources[h].edges| && EdgeHas(c.sources[h].edges[i], k)
    {
      EdgeKindsAre(c, h, k);
    }
  }

  lemma TellsOnce(c: Config, disk: Disk, m: Manifest)
    requires (exists other :: Tells(c, disk, other)) && HasContent(disk, Final(ManifestFile), ManifestContent(m))
    ensures Tells(c, disk, m)
  {
    hide TellsGraph, SumsOf, OneOfTheGraphs;
  }

  /** An uninterrupted dump finishes, tells the whole source, and names every kind. */
  lemma UninterruptedTells(c: Config) returns (n: nat, m: Manifest)
    requires ValidConfig(c) && Dumpable(c)
    ensures var w := Iterate(c, Start(c, World(map[], None)), n);
            && w.proc.Some? && w.proc.value.pc.Done? && Tells(c, w.disk, m)
            && |m.schemas| == |c.sources| && forall h :: 0 <= h < |c.sources| ==> NamesAllKinds(c.sources[h], m.schemas[h])
  {
    hide Good, ValidConfig, Step, IdentityOf, Dumpable, Tells, NamesAllKinds, HasContent, ExpectedGraph, ExpectedMetrics, Totals, ExpectedSchema;
    ShardSizePositive(c);
    var w0 := World(map[], None);
    StartKeeps(c, w0);
    n := StraightFinishes(c, Start(c, w0));
    var w := Iterate(c, Start(c, w0), n);
    m := ExpectedManifest(c);
    DoneIsExpected(c, w);
    DoneTells(c, w);
    TellsOnce(c, w.disk, m);
    forall h | 0 <= h < |c.sources|
      ensures NamesAllKinds(c.sources[h], m.schemas[h])
    {
      ExpectedNames(c, h);
    }
  }

  lemma DoneIsExpected(c: Config, w: World)
    requires ValidConfig(c) && Good(c, w) && w.proc.Some? && w.proc.value.pc.Done? && Straight(c, w.proc.value)
    ensures 0 < c.shardSize && HasContent(w.disk, Final(ManifestFile), ManifestContent(ExpectedManifest(c)))
  {
    hide Good, ValidConfig, ExpectedManifest, HasContent;
    ShardSizePositive(c);
    DoneManifest(c, w);
    DoneExact(c, w);
  }
}
