/** Facts about the shards of a source: what their entries add up to, and what a restore reads out of them. */
module DumpShards {
  import opened Optional
  import Metrics
  import opened DumpModel
  import opened DumpProtocol

  // ----- Where shards end -----

  lemma {:induction false} CutShift(n: nat, size: nat, j: nat)
    requires size < n
    ensures Cut(n, size, j + 1) == size + Cut(n - size, size, j)
  {
    if j > 0 {
      CutShift(n, size, j - 1);
    }
  }

  /** `ShardCount` shards are needed and enough. */
  lemma {:induction false} CutFull(n: nat, size: nat, j: nat)
    requires 0 < size
    ensures Cut(n, size, j) < n <==> j < ShardCount(n, size)
    ensures j >= ShardCount(n, size) ==> Cut(n, size, j) == n
    decreases n, j
  {
    if j > 0 {
      CutMonotone(n, size, j - 1);
      if n > size {
        CutShift(n, size, j - 1);
        CutFull(n - size, size, j - 1);
      } else {
        assert Cut(n, size, j) == n;
      }
    }
  }

  // ----- Sums over shards -----

  lemma {:induction false} PlusAssoc(a: Counts, b: Counts, d: Counts)
    ensures a.Plus(b).Plus(d) == a.Plus(b.Plus(d))
    ensures a.Plus(ZERO) == a && ZERO.Plus(a) == a
  {
  }

  lemma {:induction false} CountAllJoin(c: Config, a: seq<Row>, b: seq<Row>)
    ensures CountAll(c, a + b) == CountAll(c, a).Plus(CountAll(c, b))
  {
    hide Counts.Plus, CountsOf;
    if b == [] {
      assert a + b == a;
      PlusAssoc(CountAll(c, a), ZERO, ZERO);
    } else {
      var front, last := b[..|b| - 1], b[|b| - 1];
      assert (a + b)[..|a + b| - 1] == a + front;
      assert (a + b)[|a + b| - 1] == last;
      CountAllJoin(c, a, front);
      PlusAssoc(CountAll(c, a), CountAll(c, front), CountsOf(c, last));
    }
  }

  lemma EntriesLast(c: Config, name: string, phase: Phase, rows: seq<Row>, j: nat)
    ensures ShardEntries(c, name, phase, rows, j + 1)[..j] == ShardEntries(c, name, phase, rows, j)
    ensures ShardEntries(c, name, phase, rows, j + 1) == ShardEntries(c, name, phase, rows, j) + [ShardEntry(c, name, phase, rows, j)]
  {
  }

  lemma PrefixByShard(rows: seq<Row>, size: nat, j: nat)
    ensures Cut(|rows|, size, j) <= Cut(|rows|, size, j + 1) <= |rows|
    ensures rows[..Cut(|rows|, size, j + 1)] == rows[..Cut(|rows|, size, j)] + ShardRows(rows, size, j)
  {
    CutMonotone(|rows|, size, j);
  }

  lemma CutBound(n: nat, size: nat, j: nat)
    ensures Cut(n, size, j) <= n
  {
    CutMonotone(n, size, j);
  }

  /** The rows of the first `j` shards. */
  function Prefix(c: Config, rows: seq<Row>, j: nat): seq<Row> {
    CutBound(|rows|, c.shardSize, j);
    rows[..Cut(|rows|, c.shardSize, j)]
  }

  lemma {:induction false} EntriesTotal(c: Config, name: string, phase: Phase, rows: seq<Row>, j: nat)
    ensures FileTotal(ShardEntries(c, name, phase, rows, j)) == Cut(|rows|, c.shardSize, j)
  {
    if j > 0 {
      EntriesLast(c, name, phase, rows, j - 1);
      EntriesTotal(c, name, phase, rows, j - 1);
      CutMonotone(|rows|, c.shardSize, j - 1);
    }
  }

  lemma CountsMore(files: seq<FileEntry>, e: FileEntry)
    ensures FileCounts(files + [e]) == FileCounts(files).Plus(e.counts)
  {
    assert (files + [e])[..|files|] == files;
  }

  lemma {:induction false} EntriesCounts(c: Config, name: string, phase: Phase, rows: seq<Row>, j: nat)
    ensures FileCounts(ShardEntries(c, name, phase, rows, j)) == CountAll(c, Prefix(c, rows, j))
  {
    if j > 0 {
      EntriesLast(c, name, phase, rows, j - 1);
      EntriesCounts(c, name, phase, rows, j - 1);
      PrefixByShard(rows, c.shardSize, j - 1);
      CountAllJoin(c, Prefix(c, rows, j - 1), ShardRows(rows, c.shardSize, j - 1));
      CountsMore(ShardEntries(c, name, phase, rows, j - 1), ShardEntry(c, name, phase, rows, j - 1));
      hide FileCounts, CountAll, ShardEntries, ItemsOf, Counts.Plus;
    }
  }

  lemma {:induction false} EntriesRecords(c: Config, name: string, phase: Phase, rows: seq<Row>, j: nat)
    ensures Records(ShardEntries(c, name, phase, rows, j)) == ItemsOf(c, Prefix(c, rows, j))
  {
    if j > 0 {
      EntriesLast(c, name, phase, rows, j - 1);
      EntriesRecords(c, name, phase, rows, j - 1);
      PrefixByShard(rows, c.shardSize, j - 1);
      ItemsJoin(c, Prefix(c, rows, j - 1), ShardRows(rows, c.shardSize, j - 1));
      RecordsMore(ShardEntries(c, name, phase, rows, j - 1), ShardEntry(c, name, phase, rows, j - 1));
      hide Records, ItemsOf, ShardEntries;
    }
  }

  lemma ItemsJoin(c: Config, a: seq<Row>, b: seq<Row>)
    ensures ItemsOf(c, a + b) == ItemsOf(c, a) + ItemsOf(c, b)
  {
  }

  lemma RecordsMore(files: seq<FileEntry>, e: FileEntry)
    ensures Records(files + [e]) == Records(files) + e.digest
  {
    assert (files + [e])[..|files|] == files;
  }

  lemma {:induction false} RecordsJoin(a: seq<FileEntry>, b: seq<FileEntry>)
    ensures Records(a + b) == Records(a) + Records(b)
  {
    if b == [] {
      assert a + b == a;
    } else {
      assert (a + b)[..|a + b| - 1] == a + b[..|b| - 1];
      RecordsJoin(a, b[..|b| - 1]);
    }
  }

  // ----- Splitting by phase -----

  /** The entries of graph `s` when `a` node shards and `b` edge shards are committed. */
  function Committed(c: Config, s: GraphSource, a: nat, b: nat): seq<FileEntry> {
    ShardEntries(c, s.name, Nodes, s.nodes, a) + ShardEntries(c, s.name, Edges, s.edges, b)
  }

  lemma {:induction false} PhaseFilesOfNodes(c: Config, s: GraphSource, a: nat)
    ensures PhaseFiles(ShardEntries(c, s.name, Nodes, s.nodes, a), Nodes) == ShardEntries(c, s.name, Nodes, s.nodes, a)
    ensures PhaseFiles(ShardEntries(c, s.name, Nodes, s.nodes, a), Edges) == []
  {
    if a > 0 {
      EntriesLast(c, s.name, Nodes, s.nodes, a - 1);
      PhaseFilesOfNodes(c, s, a - 1);
    }
  }

  lemma {:induction false} PhaseFilesOf(c: Config, s: GraphSource, a: nat, b: nat)
    ensures PhaseFiles(Committed(c, s, a, b), Nodes) == ShardEntries(c, s.name, Nodes, s.nodes, a)
    ensures PhaseFiles(Committed(c, s, a, b), Edges) == ShardEntries(c, s.name, Edges, s.edges, b)
  {
    if b == 0 {
      assert Committed(c, s, a, 0) == ShardEntries(c, s.name, Nodes, s.nodes, a);
      PhaseFilesOfNodes(c, s, a);
    } else {
      EntriesLast(c, s.name, Edges, s.edges, b - 1);
      PhaseFilesOf(c, s, a, b - 1);
      var files := Committed(c, s, a, b);
      assert files[..|files| - 1] == Committed(c, s, a, b - 1);
      assert files[|files| - 1] == ShardEntry(c, s.name, Edges, s.edges, b - 1);
    }
  }

  lemma CommittedRecords(c: Config, s: GraphSource, a: nat, b: nat)
    ensures Records(Committed(c, s, a, b)) == ItemsOf(c, Prefix(c, s.nodes, a)) + ItemsOf(c, Prefix(c, s.edges, b))
  {
    RecordsJoin(ShardEntries(c, s.name, Nodes, s.nodes, a), ShardEntries(c, s.name, Edges, s.edges, b));
    EntriesRecords(c, s.name, Nodes, s.nodes, a);
    EntriesRecords(c, s.name, Edges, s.edges, b);
  }

  // ----- Kinds -----

  lemma NodeKindsAgree(c: Config, rows: seq<Row>)
    requires forall i :: 0 <= i < |rows| ==> rows[i].NodeRow?
    ensures KindsOfItems(ItemsOf(c, rows)) == KindsOfRows(c, rows)
  {
    var items := ItemsOf(c, rows);
    assert forall i :: 0 <= i < |rows| ==> items[i] == ItemOf(c, rows[i]);
    assert forall i :: 0 <= i < |rows| ==> RestoredKinds(items[i]) == ScannedKinds(c, rows[i]);
  }

  /** A restored relationship never contributes the empty kind, a scanned one does when its kind is present and empty. */
  lemma EdgeKindsAgree(c: Config, rows: seq<Row>)
    requires forall i :: 0 <= i < |rows| ==> rows[i].EdgeRow?
    ensures KindsOfItems(ItemsOf(c, rows)) == KindsOfRows(c, rows) - {""}
  {
    var items := ItemsOf(c, rows);
    assert forall i :: 0 <= i < |rows| ==> items[i] == ItemOf(c, rows[i]);
    assert forall i :: 0 <= i < |rows| ==> RestoredKinds(items[i]) == ScannedKinds(c, rows[i]) - {""};
  }

  // ----- The metrics accept the records in order -----

  function Seen(c: Config, s: GraphSource, n: nat, e: nat): seq<Observation>
    requires n <= |s.nodes| && e <= |s.edges|
  {
    ObserveAll(ItemsOf(c, s.nodes[..n])) + ObserveAll(ItemsOf(c, s.edges[..e]))
  }

  lemma SeenAt(c: Config, s: GraphSource, n: nat, e: nat, i: nat)
    requires n <= |s.nodes| && e <= |s.edges| && i < n + e
    ensures |Seen(c, s, n, e)| == n + e
    ensures Seen(c, s, n, e)[i] == Observe(ItemOf(c, if i < n then s.nodes[i] else s.edges[i - n]))
  {
  }

  /** The observations without the last one. */
  lemma SeenFront(c: Config, s: GraphSource, n: nat, e: nat)
    requires n <= |s.nodes| && e <= |s.edges| && n + e > 0
    ensures |Seen(c, s, n, e)| == n + e
    ensures Seen(c, s, n, e)[..n + e - 1] == if e > 0 then Seen(c, s, n, e - 1) else Seen(c, s, n - 1, 0)
  {
    hide Observe, ItemOf;
    var seen, front := Seen(c, s, n, e), if e > 0 then Seen(c, s, n, e - 1) else Seen(c, s, n - 1, 0);
    forall i | 0 <= i < n + e - 1
      ensures seen[i] == front[i]
    {
      SeenAt(c, s, n, e, i);
      SeenAt(c, s, if e > 0 then n else n - 1, if e > 0 then e - 1 else 0, i);
    }
  }

  lemma LastSeen(c: Config, s: GraphSource, n: nat, e: nat)
    requires ValidSource(s) && n <= |s.nodes| && e <= |s.edges| && n + e > 0
    ensures |Seen(c, s, n, e)| == n + e && (Seen(c, s, n, e)[n + e - 1].SawNode? <==> e == 0)
  {
    SeenAt(c, s, n, e, n + e - 1);
  }

  lemma NodesSeenLast(observed: seq<Observation>)
    requires observed != []
    ensures NodesSeen(observed) == NodesSeen(observed[..|observed| - 1]) + if observed[|observed| - 1].SawNode? then 1 else 0
  {
  }

  lemma NothingSeen(c: Config, s: GraphSource)
    ensures NodesSeen(Seen(c, s, 0, 0)) == 0
  {
  }

  lemma {:induction false} NodesSeenPrefix(c: Config, s: GraphSource, n: nat, e: nat)
    requires ValidSource(s) && n <= |s.nodes| && e <= |s.edges|
    ensures NodesSeen(Seen(c, s, n, e)) == n
    decreases n + e
  {
    hide Seen, ValidSource, NodesSeen;
    if n + e == 0 {
      NothingSeen(c, s);
    } else {
      SeenFront(c, s, n, e);
      LastSeen(c, s, n, e);
      NodesSeenLast(Seen(c, s, n, e));
      if e > 0 {
        NodesSeenPrefix(c, s, n, e - 1);
      } else {
        NodesSeenPrefix(c, s, n - 1, 0);
      }
    }
  }

  lemma NextNodeUnseen(c: Config, s: GraphSource, n: nat)
    requires ValidSource(s) && n < |s.nodes|
    ensures ItemOf(c, s.nodes[n]).NodeItem? && !SeenNode(Seen(c, s, n, 0), s.nodes[n].id) && ItemOf(c, s.nodes[n]).id == s.nodes[n].id
  {
    var seen := Seen(c, s, n, 0);
    forall i | 0 <= i < |seen| && seen[i].SawNode?
      ensures seen[i].id != s.nodes[n].id
    {
      SeenAt(c, s, n, 0, i);
      assert s.nodes[i].id < s.nodes[n].id;
    }
  }

  /** The next node is accepted exactly while the metrics have room for it. */
  lemma NextNodeObservable(c: Config, s: GraphSource, n: nat)
    requires ValidSource(s) && n < |s.nodes|
    ensures Observable(Seen(c, s, n, 0), Observe(ItemOf(c, s.nodes[n]))) <==> n < Metrics.MAX_ORDINALS
  {
    hide Seen, SeenNode, NodesSeen;
    NextNodeUnseen(c, s, n);
    NodesSeenPrefix(c, s, n, 0);
  }

  lemma EndpointSeen(c: Config, s: GraphSource, e: nat, id: nat)
    requires ValidSource(s) && e <= |s.edges| && HasNode(s, id)
    ensures SeenNode(Seen(c, s, |s.nodes|, e), id)
  {
    var i :| 0 <= i < |s.nodes| && s.nodes[i].id == id;
    SeenAt(c, s, |s.nodes|, e, i);
  }

  lemma NextEdgeObservable(c: Config, s: GraphSource, e: nat)
    requires ValidSource(s) && e < |s.edges|
    ensures Observable(Seen(c, s, |s.nodes|, e), Observe(ItemOf(c, s.edges[e])))
  {
    EndpointSeen(c, s, e, s.edges[e].start);
    EndpointSeen(c, s, e, s.edges[e].end);
  }

  /** The records of a source are accepted in order exactly when there is room for their nodes. */
  lemma SeenObservable(c: Config, s: GraphSource, n: nat, e: nat)
    requires ValidSource(s) && n <= |s.nodes| && e <= |s.edges|
    requires e > 0 ==> n == |s.nodes|
    ensures AllObservable(Seen(c, s, n, e)) <==> n <= Metrics.MAX_ORDINALS
  {
    hide Observable, ValidSource;
    var seen := Seen(c, s, n, e);
    forall i | 0 <= i < |seen|
      ensures Observable(seen[..i], seen[i]) <==> i < Metrics.MAX_ORDINALS || i >= n
    {
      SeenAt(c, s, n, e, i);
      if i < n {
        assert seen[..i] == Seen(c, s, i, 0);
        NextNodeObservable(c, s, i);
      } else {
        assert seen[..i] == Seen(c, s, n, i - n);
        NextEdgeObservable(c, s, i - n);
      }
    }
    if n > Metrics.MAX_ORDINALS {
      assert !Observable(seen[..Metrics.MAX_ORDINALS], seen[Metrics.MAX_ORDINALS]);
    }
  }
}
