/** The keyset scan of one entity kind, batch by batch, over any reader. */
module EntityScan {
  import opened Optional
  import opened DumpModel
  import opened DumpProtocol
  import opened DumpSpots
  import opened DumpScanSteps

  datatype Outcome =
    | Ok
    | BadProgress
    | CursorRequired
    | BadBatchSize
    | LimitExceeded
    | NotIncreasing
    | HandlerFailed
    | EndedEarly

  /** What the database answers to the `n`-th read: any rows at all. */
  type Reader = (Option<nat>, nat, nat) -> seq<Row>

  /** Strictly increasing IDs, all after the cursor. */
  ghost predicate Advances(after: Option<nat>, rows: seq<Row>) {
    && (forall i :: 0 <= i < |rows| ==> IsAfter(after, rows[i]))
    && Increasing(rows)
  }

  /** The cursor after handing out `rows`. */
  ghost function CursorAfter(after: Option<nat>, rows: seq<Row>): Option<nat> {
    if rows == [] then after else Some(rows[|rows| - 1].id)
  }

  /** The reader answers keyset queries over a fixed table. */
  ghost predicate Honest(read: Reader, rows: seq<Row>) {
    Increasing(rows) && forall after, limit, n :: read(after, limit, n) == Query(rows, after, limit)
  }

  ghost predicate Accepting(accepts: (seq<Row>, Row) -> bool) {
    forall seen, row :: accepts(seen, row)
  }

  lemma AdvancesOne(after: Option<nat>, rows: seq<Row>, row: Row)
    requires Advances(after, rows) && IsAfter(CursorAfter(after, rows), row)
    ensures Advances(after, rows + [row])
  {
  }

  /** The visitor over one batch. */
  method VisitBatch(start: Option<nat>, before: seq<Row>, batch: seq<Row>, requested: nat, accepts: (seq<Row>, Row) -> bool)
    returns (lastID: Option<nat>, visited: seq<Row>, accepted: nat, outcome: Outcome)
    requires Advances(start, before)
    ensures Advances(start, visited) && lastID == CursorAfter(start, visited)
    ensures accepted <= requested && accepted <= |batch| && visited == before + batch[..accepted]
    ensures outcome == Ok ==> accepted == |batch|
    ensures outcome == LimitExceeded ==> accepted == requested < |batch|
    ensures outcome in {Ok, LimitExceeded, NotIncreasing, HandlerFailed}
    ensures outcome == NotIncreasing ==> accepted < |batch| && !IsAfter(lastID, batch[accepted])
    ensures outcome == HandlerFailed ==> accepted < |batch| && !accepts(visited, batch[accepted])
  {
    lastID := if before == [] then start else Some(before[|before| - 1].id);
    visited := before;
    accepted := 0;
    for i := 0 to |batch|
      invariant accepted == i <= requested
      invariant visited == before + batch[..i]
      invariant Advances(start, visited) && lastID == CursorAfter(start, visited)
    {
      var entity := batch[i];
      if accepted >= requested {
        return lastID, visited, accepted, LimitExceeded;
      }
      if !IsAfter(lastID, entity) {
        return lastID, visited, accepted, NotIncreasing;
      }
      if !accepts(visited, entity) {
        return lastID, visited, accepted, HandlerFailed;
      }
      AdvancesOne(start, visited, entity);
      assert batch[..i + 1] == batch[..i] + [entity];
      visited := visited + [entity];
      lastID := Some(entity.id);
      accepted := accepted + 1;
    }
    outcome := Ok;
  }

  /**
   * `scanEntityBatches`. Over any reader the rows handed out have strictly increasing IDs after the start, never more than
   * asked for, and success means exactly as many as counted. Over a keyset reader they are the rows of the table from the
   * start on, for every batch size, and the scan succeeds exactly when the table has as many rows as were counted.
   */
  method ScanEntityBatches(total: int, batchSize: int, start: Option<nat>, already: int, read: Reader, accepts: (seq<Row>, Row) -> bool,
                           ghost rows: seq<Row>)
    returns (processed: int, visited: seq<Row>, outcome: Outcome)
    ensures Advances(start, visited)
    ensures total <= 0 ==> outcome == Ok && processed == 0 && visited == []
    ensures total > 0 && !(0 <= already <= total) ==> outcome == BadProgress && visited == []
    ensures total > 0 && 0 < already <= total && start.None? ==> outcome == CursorRequired && visited == []
    ensures total > 0 && 0 <= already <= total && (already > 0 ==> start.Some?) && batchSize <= 0 ==> outcome == BadBatchSize && visited == []
    ensures outcome == Ok && total > 0 ==> processed == total && |visited| == total - already
    ensures total > 0 ==> |visited| <= (if already <= total then total - already else 0)
    ensures 0 <= already <= total && total > 0 && batchSize > 0 && HonestFrom(rows, start, already, read, accepts) ==>
              && Handed(rows, already, if total < |rows| then total else |rows|, visited)
              && outcome == (if total <= |rows| then Ok else EndedEarly)
  {
    hide Advances, HonestFrom;
    assert Advances(start, []) by { NothingAdvances(start); }
    visited, processed := [], 0;
    if total <= 0 {
      return 0, [], Ok;
    }
    if already < 0 || already > total {
      return 0, [], BadProgress;
    }
    if HonestFrom(rows, start, already, read, accepts) {
      HonestStart(rows, start, already, read, accepts);
    }
    if already > 0 && start.None? {
      return 0, [], CursorRequired;
    }
    if batchSize <= 0 {
      return 0, [], BadBatchSize;
    }
    ghost var honest := HonestFrom(rows, start, already, read, accepts);
    var lastID := start;
    var n := 0;
    processed := already;
    while processed < total
      invariant already <= processed <= total && processed == already + |visited|
      invariant Advances(start, visited) && lastID == CursorAfter(start, visited)
      invariant honest ==> Handed(rows, already, processed, visited)
      decreases total - processed
    {
      var requested := if batchSize > total - processed then total - processed else batchSize;
      var batch := read(lastID, requested, n);
      ghost var before := visited;
      var accepted: nat;
      lastID, visited, accepted, outcome := VisitBatch(start, visited, batch, requested, accepts);
      if honest {
        HonestRound(rows, start, already, processed, requested, n, read, accepts, before, visited, accepted, outcome);
      }
      processed := processed + accepted;
      n := n + 1;
      if outcome != Ok {
        return;
      }
      if accepted < requested && processed < total {
        return processed, visited, EndedEarly;
      }
    }
    outcome := Ok;
  }

  lemma NothingAdvances(start: Option<nat>)
    ensures Advances(start, [])
  {
  }

  ghost predicate HonestFrom(rows: seq<Row>, start: Option<nat>, already: nat, read: Reader, accepts: (seq<Row>, Row) -> bool) {
    already <= |rows| && start == CursorAt(rows, already) && Honest(read, rows) && Accepting(accepts)
  }

  ghost predicate Handed(rows: seq<Row>, already: nat, processed: nat, visited: seq<Row>) {
    already <= processed <= |rows| && visited == rows[already..processed]
  }

  lemma HonestStart(rows: seq<Row>, start: Option<nat>, already: nat, read: Reader, accepts: (seq<Row>, Row) -> bool)
    requires HonestFrom(rows, start, already, read, accepts)
    ensures Handed(rows, already, already, []) && (start.Some? <==> already > 0)
  {
  }

  /** A round over a keyset reader hands out the next rows and cannot be refused. */
  lemma HonestRound(rows: seq<Row>, start: Option<nat>, already: nat, processed: nat, requested: nat, n: nat, read: Reader,
                    accepts: (seq<Row>, Row) -> bool, before: seq<Row>, visited: seq<Row>, accepted: nat, outcome: Outcome)
    requires HonestFrom(rows, start, already, read, accepts) && Handed(rows, already, processed, before)
    requires var batch := read(CursorAfter(start, before), requested, n);
             && accepted <= |batch| && visited == before + batch[..accepted]
             && (outcome == Ok ==> accepted == |batch|)
             && (outcome == LimitExceeded ==> accepted == requested < |batch|)
             && outcome in {Ok, LimitExceeded, NotIncreasing, HandlerFailed}
             && (outcome == NotIncreasing ==> accepted < |batch| && !IsAfter(CursorAfter(start, visited), batch[accepted]))
             && (outcome == HandlerFailed ==> accepted < |batch| && !accepts(visited, batch[accepted]))
    ensures outcome == Ok && accepted == Least(requested, |rows| - processed) && Handed(rows, already, processed + accepted, visited)
  {
    hide Honest, Accepting, Query, IsAfter, Increasing, CursorAt, CursorAfter;
    HandedCursor(rows, start, already, processed, before);
    HonestFetch(rows, processed, requested, n, read);
    HandedMore(rows, already, processed, requested, before, visited, accepted);
    HandedCursor(rows, start, already, processed + accepted, visited);
    HonestNext(rows, processed + accepted, read, visited, accepts);
  }

  lemma HandedCursor(rows: seq<Row>, start: Option<nat>, already: nat, processed: nat, visited: seq<Row>)
    requires Handed(rows, already, processed, visited) && start == CursorAt(rows, already)
    ensures CursorAfter(start, visited) == CursorAt(rows, processed)
  {
  }

  lemma HandedMore(rows: seq<Row>, already: nat, processed: nat, requested: nat, before: seq<Row>, visited: seq<Row>, accepted: nat)
    requires Handed(rows, already, processed, before)
    requires accepted <= Least(processed + requested, |rows|) - processed
    requires visited == before + rows[processed..Least(processed + requested, |rows|)][..accepted]
    ensures Handed(rows, already, processed + accepted, visited)
  {
  }

  lemma HonestFetch(rows: seq<Row>, processed: nat, requested: nat, n: nat, read: Reader)
    requires Honest(read, rows) && processed <= |rows|
    ensures read(CursorAt(rows, processed), requested, n) == rows[processed..Least(processed + requested, |rows|)]
  {
    QueryIs(rows, processed, requested);
  }

  lemma HonestNext(rows: seq<Row>, pos: nat, read: Reader, visited: seq<Row>, accepts: (seq<Row>, Row) -> bool)
    requires Honest(read, rows) && Accepting(accepts) && pos <= |rows|
    ensures pos < |rows| ==> IsAfter(CursorAt(rows, pos), rows[pos]) && accepts(visited, rows[pos])
  {
  }
}
