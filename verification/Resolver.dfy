/** Loading nodes: the source-to-destination ID resolver and the batching loop around it. */
module Resolver {
  import opened Optional
  import opened Decimals

  type ID = nat

  /** The entry the two maps of a resolver hold for a source ID. */
  function Entry(numeric: map<nat, ID>, fallback: map<string, ID>, sourceID: string): Option<ID> {
    match Canonical(sourceID)
    case Some(n) => if n in numeric then Some(numeric[n]) else None
    case None => if sourceID in fallback then Some(fallback[sourceID]) else None
  }

  function Lookup(contents: map<string, ID>, sourceID: string): Option<ID> {
    if sourceID in contents then Some(contents[sourceID]) else None
  }

  /** The two maps together are one map keyed by all strings. */
  ghost predicate Represents(numeric: map<nat, ID>, fallback: map<string, ID>, contents: map<string, ID>) {
    forall s :: Entry(numeric, fallback, s) == Lookup(contents, s)
  }

  lemma PutNumeric(numeric: map<nat, ID>, fallback: map<string, ID>, contents: map<string, ID>, sourceID: string, id: ID)
    requires Represents(numeric, fallback, contents) && Canonical(sourceID).Some?
    ensures Represents(numeric[Canonical(sourceID).value := id], fallback, contents[sourceID := id])
  {
    hide Canonical;
    var n := Canonical(sourceID).value;
    var numeric', contents' := numeric[n := id], contents[sourceID := id];
    forall s
      ensures Entry(numeric', fallback, s) == Lookup(contents', s)
    {
      assert Entry(numeric, fallback, s) == Lookup(contents, s);
      if Canonical(s) == Some(n) {
        CanonicalInjective(s, sourceID);
      }
    }
  }

  lemma PutFallback(numeric: map<nat, ID>, fallback: map<string, ID>, contents: map<string, ID>, sourceID: string, id: ID)
    requires Represents(numeric, fallback, contents) && Canonical(sourceID).None?
    ensures Represents(numeric, fallback[sourceID := id], contents[sourceID := id])
  {
    hide Canonical;
    var fallback', contents' := fallback[sourceID := id], contents[sourceID := id];
    forall s
      ensures Entry(numeric, fallback', s) == Lookup(contents', s)
    {
      assert Entry(numeric, fallback, s) == Lookup(contents, s);
    }
  }

  /** `nodeIDResolver` refines a put-if-absent map keyed by strings. */
  class NodeIDResolver {
    var numeric: map<nat, ID>
    var fallback: map<string, ID>
    ghost var contents: map<string, ID>

    ghost predicate Valid()
      reads this
    {
      Represents(numeric, fallback, contents)
    }

    constructor ()
      ensures Valid() && contents == map[]
    {
      numeric, fallback, contents := map[], map[], map[];
    }

    method Put(sourceID: string, destinationID: ID) returns (added: bool)
      requires Valid()
      modifies this
      ensures Valid() && added == (sourceID !in old(contents))
      ensures contents == if added then old(contents)[sourceID := destinationID] else old(contents)
    {
      hide Canonical;
      assert Entry(numeric, fallback, sourceID) == Lookup(contents, sourceID);
      var numericID := CanonicalNumericSourceID(sourceID);
      if numericID.Some? {
        if numericID.value in numeric {
          return false;
        }
        PutNumeric(numeric, fallback, contents, sourceID, destinationID);
        numeric := numeric[numericID.value := destinationID];
      } else {
        if sourceID in fallback {
          return false;
        }
        PutFallback(numeric, fallback, contents, sourceID, destinationID);
        fallback := fallback[sourceID := destinationID];
      }
      contents := contents[sourceID := destinationID];
      return true;
    }

    method Resolve(sourceID: string) returns (resolved: Option<ID>)
      requires Valid()
      ensures resolved == Lookup(contents, sourceID)
    {
      hide Canonical;
      assert Entry(numeric, fallback, sourceID) == Lookup(contents, sourceID);
      var numericID := CanonicalNumericSourceID(sourceID);
      if numericID.Some? {
        return if numericID.value in numeric then Some(numeric[numericID.value]) else None;
      }
      return if sourceID in fallback then Some(fallback[sourceID]) else None;
    }
  }

  // ----- Loading the node fragments of a graph -----

  datatype Record = Record(sourceID: string, payload: string)

  /** A node fragment and the record count its manifest entry gives. */
  datatype Fragment = Fragment(records: seq<Record>, count: nat)

  /** What the database returns for the `n`-th bulk creation: any IDs at all. */
  type Creator = (nat, seq<Record>) -> seq<ID>

  ghost function AllRecords(fragments: seq<Fragment>): seq<Record> {
    if fragments == [] then [] else AllRecords(fragments[..|fragments| - 1]) + fragments[|fragments| - 1].records
  }

  /** The records created so far, with the ID each was given. */
  datatype Creation = Creation(records: seq<Record>, ids: seq<ID>)

  /** The resolver holds exactly the created records, each with its own ID, and no source ID twice. */
  ghost predicate Resolves(contents: map<string, ID>, created: Creation) {
    && |created.records| == |created.ids|
    && (forall i :: 0 <= i < |created.records| ==> created.records[i].sourceID in contents && contents[created.records[i].sourceID] == created.ids[i])
    && (forall s :: s in contents ==> Names(created.records, s))
  }

  ghost predicate Names(records: seq<Record>, s: string) {
    exists i :: 0 <= i < |records| && records[i].sourceID == s
  }

  ghost predicate DistinctSources(records: seq<Record>) {
    forall i, j :: 0 <= i < j < |records| ==> records[i].sourceID != records[j].sourceID
  }

  ghost predicate AllNamed(records: seq<Record>) {
    forall i :: 0 <= i < |records| ==> records[i].sourceID != ""
  }

  lemma ResolvesOneMore(contents: map<string, ID>, created: Creation, r: Record, id: ID)
    requires Resolves(contents, created) && r.sourceID !in contents
    ensures Resolves(contents[r.sourceID := id], Creation(created.records + [r], created.ids + [id]))
  {
    var contents', records' := contents[r.sourceID := id], created.records + [r];
    forall s | s in contents'
      ensures Names(records', s)
    {
      if s == r.sourceID {
        assert records'[|created.records|].sourceID == s;
      } else {
        var i :| 0 <= i < |created.records| && created.records[i].sourceID == s;
        assert records'[i].sourceID == s;
      }
    }
  }

  /** The part of `flush` after the creation: every pending record is put with its own ID. */
  method PutAll(resolver: NodeIDResolver, pending: seq<Record>, ids: seq<ID>, ghost created: Creation) returns (ok: bool, ghost created': Creation)
    requires resolver.Valid() && Resolves(resolver.contents, created) && |ids| == |pending|
    modifies resolver
    ensures resolver.Valid()
    ensures ok ==> created' == Creation(created.records + pending, created.ids + ids) && Resolves(resolver.contents, created')
    ensures DistinctSources(pending) && (forall i :: 0 <= i < |pending| ==> pending[i].sourceID !in old(resolver.contents)) ==> ok
  {
    hide Resolves, Represents;
    created' := created;
    ok := true;
    ghost var start := resolver.contents;
    for i := 0 to |pending|
      invariant resolver.Valid() && Resolves(resolver.contents, created')
      invariant created' == Creation(created.records + pending[..i], created.ids + ids[..i])
      invariant forall s :: s in resolver.contents ==> s in start || Names(pending[..i], s)
    {
      ghost var before := resolver.contents;
      var added := resolver.Put(pending[i].sourceID, ids[i]);
      if !added {
        assert pending[i].sourceID in start || Names(pending[..i], pending[i].sourceID);
        return false, created';
      }
      ResolvesOneMore(before, created', pending[i], ids[i]);
      forall s | s in resolver.contents
        ensures s in start || Names(pending[..i + 1], s)
      {
        NamesMore(pending, i, s);
      }
      created' := Creation(created'.records + [pending[i]], created'.ids + [ids[i]]);
      assert pending[..i + 1] == pending[..i] + [pending[i]] && ids[..i + 1] == ids[..i] + [ids[i]];
    }
    assert pending[..|pending|] == pending && ids[..|ids|] == ids;
  }

  lemma NamesMore(records: seq<Record>, i: nat, s: string)
    requires i < |records|
    ensures Names(records[..i + 1], s) <==> Names(records[..i], s) || records[i].sourceID == s
  {
    if Names(records[..i], s) {
      var k :| 0 <= k < i && records[..i][k].sourceID == s;
      assert records[..i + 1][k].sourceID == s;
    }
    if records[i].sourceID == s {
      assert records[..i + 1][i].sourceID == s;
    }
  }

  /** Creations return one ID for each record. */
  ghost predicate Correlated(create: Creator) {
    forall n, records :: |create(n, records)| == |records|
  }

  function SourceIDs(records: seq<Record>): set<string> {
    set i | 0 <= i < |records| :: records[i].sourceID
  }

  /** What the loop has taken in: created records, then pending ones, with no source ID twice. */
  ghost predicate TakenIn(resolver: NodeIDResolver, created: Creation, pending: seq<Record>, pendingIDs: set<string>, taken: seq<Record>)
    reads resolver
  {
    && resolver.Valid() && Resolves(resolver.contents, created)
    && created.records + pending == taken
    && DistinctSources(taken) && AllNamed(taken)
    && pendingIDs == SourceIDs(pending)
  }

  /** The IDs handed over so far are those of the records taken in. */
  lemma SeenIff(resolver: NodeIDResolver, created: Creation, pending: seq<Record>, pendingIDs: set<string>, taken: seq<Record>, s: string)
    requires TakenIn(resolver, created, pending, pendingIDs, taken)
    ensures s in resolver.contents || s in pendingIDs <==> Names(taken, s)
  {
    if s in resolver.contents {
      var i :| 0 <= i < |created.records| && created.records[i].sourceID == s;
      assert taken[i].sourceID == s;
    }
    if s in pendingIDs {
      var i :| 0 <= i < |pending| && pending[i].sourceID == s;
      assert taken[|created.records| + i].sourceID == s;
    }
    if Names(taken, s) {
      var i :| 0 <= i < |taken| && taken[i].sourceID == s;
      if i < |created.records| {
        assert created.records[i] == taken[i];
      } else {
        assert pending[i - |created.records|] == taken[i];
      }
    }
  }

  // ----- The batches -----

  ghost function Concat(batches: seq<seq<Record>>): seq<Record> {
    if batches == [] then [] else Concat(batches[..|batches| - 1]) + batches[|batches| - 1]
  }

  ghost function CreatedIDs(create: Creator, batches: seq<seq<Record>>): seq<ID> {
    if batches == [] then [] else CreatedIDs(create, batches[..|batches| - 1]) + create(|batches| - 1, batches[|batches| - 1])
  }

  /** The creations behind a sequence of batches. */
  ghost function CreationOf(create: Creator, batches: seq<seq<Record>>): Creation {
    Creation(Concat(batches), CreatedIDs(create, batches))
  }

  lemma CreationMore(create: Creator, batches: seq<seq<Record>>, batch: seq<Record>)
    ensures CreationOf(create, batches + [batch]) == Creation(CreationOf(create, batches).records + batch, CreationOf(create, batches).ids + create(|batches|, batch))
  {
    assert (batches + [batch])[..|batches|] == batches;
  }

  /** Every batch has the batch size; the last may be shorter. */
  ghost predicate FullBatches(batches: seq<seq<Record>>, batchSize: nat) {
    forall k :: 0 <= k < |batches| ==> 0 < |batches[k]| <= batchSize && (k < |batches| - 1 ==> |batches[k]| == batchSize)
  }

  ghost predicate AllFull(batches: seq<seq<Record>>, batchSize: nat) {
    forall k :: 0 <= k < |batches| ==> |batches[k]| == batchSize
  }

  /** `flush`. */
  method Flush(resolver: NodeIDResolver, pending: seq<Record>, create: Creator, n: nat, ghost batches: seq<seq<Record>>, ghost taken: seq<Record>)
    returns (ok: bool, ghost batches': seq<seq<Record>>)
    requires n == |batches| && TakenIn(resolver, CreationOf(create, batches), pending, SourceIDs(pending), taken)
    modifies resolver
    ensures batches' == if pending == [] then batches else batches + [pending]
    ensures ok ==> TakenIn(resolver, CreationOf(create, batches'), [], {}, taken)
    ensures pending == [] || |create(n, pending)| == |pending| ==> ok
  {
    hide Resolves, CreationOf;
    batches' := batches;
    if pending == [] {
      return true, batches;
    }
    var destinationIDs := create(n, pending);
    batches' := batches + [pending];
    if |destinationIDs| != |pending| {
      return false, batches';
    }
    CreationMore(create, batches, pending);
    ghost var created := CreationOf(create, batches);
    PendingIsNew(resolver, created, pending, taken);
    ghost var created';
    ok, created' := PutAll(resolver, pending, destinationIDs, created);
    assert created.records + pending == taken;
  }

  lemma PendingIsNew(resolver: NodeIDResolver, created: Creation, pending: seq<Record>, taken: seq<Record>)
    requires TakenIn(resolver, created, pending, SourceIDs(pending), taken)
    ensures DistinctSources(pending) && forall i :: 0 <= i < |pending| ==> pending[i].sourceID !in resolver.contents
  {
    var n := |created.records|;
    assert forall k :: 0 <= k < n ==> created.records[k] == taken[k];
    forall i | 0 <= i < |pending|
      ensures pending[i] == taken[n + i]
      ensures !Names(created.records, pending[i].sourceID)
    {
      assert forall k :: 0 <= k < n ==> taken[k].sourceID != taken[n + i].sourceID;
    }
  }

  lemma TakeOne(resolver: NodeIDResolver, created: Creation, pending: seq<Record>, pendingIDs: set<string>, taken: seq<Record>, r: Record)
    requires TakenIn(resolver, created, pending, pendingIDs, taken) && r.sourceID != "" && r.sourceID !in resolver.contents && r.sourceID !in pendingIDs
    ensures TakenIn(resolver, created, pending + [r], pendingIDs + {r.sourceID}, taken + [r])
  {
    hide Resolves;
    SeenIff(resolver, created, pending, pendingIDs, taken, r.sourceID);
    assert created.records + (pending + [r]) == taken + [r];
    forall i | 0 <= i < |taken|
      ensures taken[i].sourceID != r.sourceID
    {
      assert !Names(taken, r.sourceID);
    }
    SourcesMore(pending, r);
  }

  lemma SourcesMore(pending: seq<Record>, r: Record)
    ensures SourceIDs(pending + [r]) == SourceIDs(pending) + {r.sourceID}
  {
    var more := pending + [r];
    assert more[|pending|] == r;
    forall s
      ensures s in SourceIDs(more) <==> s in SourceIDs(pending) + {r.sourceID}
    {
      if s in SourceIDs(pending) {
        var i :| 0 <= i < |pending| && pending[i].sourceID == s;
        assert more[i].sourceID == s;
      }
    }
  }

  /** The record is refused: it has no source ID, or its source ID was handed over before. */
  ghost predicate Refused(taken: seq<Record>, r: Record) {
    r.sourceID == "" || Names(taken, r.sourceID)
  }

  /** No record of the fragments is refused when its turn comes, and every fragment has the count of its entry. */
  ghost predicate Loadable(fragments: seq<Fragment>) {
    && DistinctSources(AllRecords(fragments)) && AllNamed(AllRecords(fragments))
    && forall f :: 0 <= f < |fragments| ==> |fragments[f].records| == fragments[f].count
  }

  lemma {:induction false} RecordsPrefix(fragments: seq<Fragment>, f: nat) returns (rest: seq<Record>)
    requires f <= |fragments|
    ensures AllRecords(fragments) == AllRecords(fragments[..f]) + rest
    decreases |fragments| - f
  {
    if f == |fragments| {
      assert fragments[..f] == fragments;
      rest := [];
    } else {
      assert fragments[..f + 1][..f] == fragments[..f];
      rest := RecordsPrefix(fragments, f + 1);
      rest := fragments[f].records + rest;
    }
  }

  lemma RecordsSplit(fragments: seq<Fragment>, f: nat, i: nat) returns (rest: seq<Record>)
    requires f < |fragments| && i < |fragments[f].records|
    ensures AllRecords(fragments) == AllRecords(fragments[..f]) + fragments[f].records[..i] + [fragments[f].records[i]] + rest
  {
    rest := RecordsPrefix(fragments, f + 1);
    assert fragments[..f + 1][..f] == fragments[..f];
    var records := fragments[f].records;
    assert records == records[..i] + [records[i]] + records[i + 1..];
    rest := records[i + 1..] + rest;
  }

  lemma RefusedWithin(taken: seq<Record>, r: Record, rest: seq<Record>)
    requires Refused(taken, r)
    ensures !(DistinctSources(taken + [r] + rest) && AllNamed(taken + [r] + rest))
  {
    var all := taken + [r] + rest;
    assert all[|taken|] == r;
    if r.sourceID != "" {
      var k :| 0 <= k < |taken| && taken[k].sourceID == r.sourceID;
      assert all[k] == taken[k];
    }
  }

  lemma RefusedIsNotLoadable(fragments: seq<Fragment>, f: nat, i: nat)
    requires f < |fragments| && i < |fragments[f].records| && Refused(AllRecords(fragments[..f]) + fragments[f].records[..i], fragments[f].records[i])
    ensures !Loadable(fragments)
  {
    hide DistinctSources, AllNamed, Refused, AllRecords;
    var rest := RecordsSplit(fragments, f, i);
    RefusedWithin(AllRecords(fragments[..f]) + fragments[f].records[..i], fragments[f].records[i], rest);
  }

  // ----- The loop -----

  ghost predicate Progress(resolver: NodeIDResolver, create: Creator, batches: seq<seq<Record>>, pending: seq<Record>, pendingIDs: set<string>,
                           taken: seq<Record>, batchSize: nat)
    reads resolver
  {
    && TakenIn(resolver, CreationOf(create, batches), pending, pendingIDs, taken)
    && AllFull(batches, batchSize) && |pending| < batchSize
  }

  lemma ProgressStarts(resolver: NodeIDResolver, create: Creator, batchSize: nat)
    requires resolver.Valid() && resolver.contents == map[] && batchSize > 0
    ensures Progress(resolver, create, [], [], {}, [], batchSize)
  {
  }

  lemma SeenMeans(resolver: NodeIDResolver, create: Creator, batches: seq<seq<Record>>, pending: seq<Record>, pendingIDs: set<string>,
                  taken: seq<Record>, batchSize: nat, r: Record)
    requires Progress(resolver, create, batches, pending, pendingIDs, taken, batchSize)
    ensures r.sourceID in resolver.contents || r.sourceID in pendingIDs <==> Names(taken, r.sourceID)
  {
    SeenIff(resolver, CreationOf(create, batches), pending, pendingIDs, taken, r.sourceID);
  }

  /** The handler of one node record: refuse it, or take it in and flush a full batch. */
  method TakeRecord(resolver: NodeIDResolver, item: Record, pending: seq<Record>, pendingIDs: set<string>, batchSize: nat, create: Creator, n: nat,
                    loaded: nat, ghost batches: seq<seq<Record>>, ghost taken: seq<Record>)
    returns (ok: bool, pending': seq<Record>, pendingIDs': set<string>, n': nat, loaded': nat, ghost batches': seq<seq<Record>>)
    requires n == |batches| && loaded == |Concat(batches)| && Progress(resolver, create, batches, pending, pendingIDs, taken, batchSize)
    modifies resolver
    ensures ok ==> !Refused(taken, item) && n' == |batches'| && loaded' == |Concat(batches')| && Progress(resolver, create, batches', pending', pendingIDs', taken + [item], batchSize)
    ensures !ok ==> Refused(taken, item) || !Correlated(create)
  {
    hide Resolves, CreationOf, Represents, DistinctSources, AllNamed, SourceIDs, Concat;
    pending', pendingIDs', n', loaded', batches' := pending, pendingIDs, n, loaded, batches;
    SeenMeans(resolver, create, batches, pending, pendingIDs, taken, batchSize, item);
    if item.sourceID == "" {
      return false, pending', pendingIDs', n', loaded', batches';
    }
    var resolved := resolver.Resolve(item.sourceID);
    if resolved.Some? || item.sourceID in pendingIDs {
      return false, pending', pendingIDs', n', loaded', batches';
    }
    TakeOne(resolver, CreationOf(create, batches), pending, pendingIDs, taken, item);
    pending', pendingIDs' := pending + [item], pendingIDs + {item.sourceID};
    ok := true;
    if |pending'| >= batchSize {
      ok, batches' := Flush(resolver, pending', create, n, batches, taken + [item]);
      ConcatMore(batches, pending');
      pending', pendingIDs', n', loaded' := [], {}, n + 1, loaded + |pending'|;
    }
  }

  lemma ConcatMore(batches: seq<seq<Record>>, batch: seq<Record>)
    ensures Concat(batches + [batch]) == Concat(batches) + batch
  {
    assert (batches + [batch])[..|batches|] == batches;
  }

  /** The records taken in after `i` records of fragment `f`. */
  ghost function TakenAt(fragments: seq<Fragment>, f: nat, i: nat): seq<Record>
    requires f < |fragments| && i <= |fragments[f].records|
  {
    AllRecords(fragments[..f]) + fragments[f].records[..i]
  }

  lemma TakenSteps(fragments: seq<Fragment>, f: nat, i: nat)
    requires f < |fragments| && i <= |fragments[f].records|
    ensures i < |fragments[f].records| ==> TakenAt(fragments, f, i + 1) == TakenAt(fragments, f, i) + [fragments[f].records[i]]
    ensures TakenAt(fragments, f, 0) == AllRecords(fragments[..f])
    ensures TakenAt(fragments, f, |fragments[f].records|) == AllRecords(fragments[..f + 1])
  {
    assert fragments[..f + 1][..f] == fragments[..f];
    assert fragments[f].records[..|fragments[f].records|] == fragments[f].records;
  }

  /**
   * `loadGraphNodes`. It succeeds exactly when the fragments are loadable (given a database that returns one ID for each
   * record), and then, for every batch size and every split into fragments, every record was created once, in order, and
   * its source ID resolves to the ID created for that record.
   */
  method LoadGraphNodes(fragments: seq<Fragment>, batchSize: nat, create: Creator)
    returns (ok: bool, nodeMap: NodeIDResolver, loaded: nat, ghost batches: seq<seq<Record>>)
    requires batchSize > 0
    ensures ok ==> nodeMap.Valid() && Resolves(nodeMap.contents, CreationOf(create, batches))
    ensures ok ==> Concat(batches) == AllRecords(fragments) && loaded == |AllRecords(fragments)| && FullBatches(batches, batchSize)
    ensures ok ==> Loadable(fragments)
    ensures Correlated(create) && Loadable(fragments) ==> ok
  {
    hide Progress, Loadable, Refused, TakenAt, Resolves, Represents, FullBatches, AllRecords, Concat, CreationOf;
    nodeMap := new NodeIDResolver();
    ok, loaded, batches := true, 0, [];
    var pending: seq<Record>, pendingIDs: set<string>, n := [], {}, 0;
    ProgressStarts(nodeMap, create, batchSize);
    assert AllRecords(fragments[..0]) == [] && Concat([]) == [] by { NothingTaken(); }
    for f := 0 to |fragments|
      invariant nodeMap.Valid() && fresh(nodeMap)
      invariant n == |batches| && loaded == |Concat(batches)|
      invariant Progress(nodeMap, create, batches, pending, pendingIDs, AllRecords(fragments[..f]), batchSize)
      invariant forall g :: 0 <= g < f ==> |fragments[g].records| == fragments[g].count
    {
      var records := fragments[f].records;
      TakenSteps(fragments, f, 0);
      for i := 0 to |records|
        invariant nodeMap.Valid() && fresh(nodeMap)
        invariant n == |batches| && loaded == |Concat(batches)|
        invariant Progress(nodeMap, create, batches, pending, pendingIDs, TakenAt(fragments, f, i), batchSize)
      {
        TakenSteps(fragments, f, i);
        ok, pending, pendingIDs, n, loaded, batches :=
          TakeRecord(nodeMap, records[i], pending, pendingIDs, batchSize, create, n, loaded, batches, TakenAt(fragments, f, i));
        if !ok {
          assert Refused(TakenAt(fragments, f, i), records[i]) ==> !Loadable(fragments) by { RefusedHere(fragments, f, i); }
          return false, nodeMap, loaded, batches;
        }
        assert nodeMap.Valid() by { ProgressValid(nodeMap, create, batches, pending, pendingIDs, TakenAt(fragments, f, i + 1), batchSize); }
      }
      TakenSteps(fragments, f, |records|);
      if |records| != fragments[f].count {
        assert !Loadable(fragments) by { MiscountedHere(fragments, f); }
        return false, nodeMap, loaded, batches;
      }
    }
    assert fragments[..|fragments|] == fragments;
    ghost var before := batches;
    ProgressTaken(nodeMap, create, batches, pending, pendingIDs, AllRecords(fragments), batchSize);
    ok, batches := Flush(nodeMap, pending, create, n, batches, AllRecords(fragments));
    if !ok {
      return false, nodeMap, loaded, batches;
    }
    loaded := loaded + |pending|;
    FlushedAll(nodeMap, create, before, batches, pending, fragments, batchSize);
  }

  lemma NothingTaken()
    ensures AllRecords([]) == [] && Concat([]) == []
  {
  }

  lemma RefusedHere(fragments: seq<Fragment>, f: nat, i: nat)
    requires f < |fragments| && i < |fragments[f].records|
    ensures Refused(TakenAt(fragments, f, i), fragments[f].records[i]) ==> !Loadable(fragments)
  {
    hide Refused, Loadable;
    if Refused(TakenAt(fragments, f, i), fragments[f].records[i]) {
      RefusedIsNotLoadable(fragments, f, i);
    }
  }

  lemma MiscountedHere(fragments: seq<Fragment>, f: nat)
    requires f < |fragments| && |fragments[f].records| != fragments[f].count
    ensures !Loadable(fragments)
  {
    hide AllRecords;
  }

  lemma ProgressTaken(resolver: NodeIDResolver, create: Creator, batches: seq<seq<Record>>, pending: seq<Record>, pendingIDs: set<string>,
                      taken: seq<Record>, batchSize: nat)
    requires Progress(resolver, create, batches, pending, pendingIDs, taken, batchSize)
    ensures TakenIn(resolver, CreationOf(create, batches), pending, SourceIDs(pending), taken)
    ensures AllFull(batches, batchSize) && |pending| < batchSize
  {
  }

  /** After the final flush everything is created, and only the last batch may be short. */
  lemma FlushedAll(resolver: NodeIDResolver, create: Creator, before: seq<seq<Record>>, batches: seq<seq<Record>>, pending: seq<Record>,
                   fragments: seq<Fragment>, batchSize: nat)
    requires AllFull(before, batchSize) && |pending| < batchSize && batches == if pending == [] then before else before + [pending]
    requires TakenIn(resolver, CreationOf(create, batches), [], {}, AllRecords(fragments))
    requires forall g :: 0 <= g < |fragments| ==> |fragments[g].records| == fragments[g].count
    ensures Concat(batches) == AllRecords(fragments) && FullBatches(batches, batchSize) && Loadable(fragments)
    ensures resolver.Valid() && Resolves(resolver.contents, CreationOf(create, batches))
    ensures |Concat(batches)| == |Concat(before)| + |pending|
  {
    hide AllRecords, Concat, CreatedIDs, Resolves, Represents;
    assert CreationOf(create, batches).records + [] == AllRecords(fragments);
    ConcatMore(before, pending);
  }

  lemma ProgressValid(resolver: NodeIDResolver, create: Creator, batches: seq<seq<Record>>, pending: seq<Record>, pendingIDs: set<string>,
                      taken: seq<Record>, batchSize: nat)
    requires Progress(resolver, create, batches, pending, pendingIDs, taken, batchSize)
    ensures resolver.Valid()
  {
  }
}
