/** The fragment writer: two files written under staging names and published together or not at all. */
module FragmentWriters {
  import opened Optional
  import opened DumpModel
  import opened DumpProtocol

  /** Which effect of closing a fragment fails. */
  datatype Faults = Faults(finalizeJsonl: bool, closeParquet: bool, renameJsonl: bool, renameParquet: bool)

  predicate NoFault(f: Faults, parquet: bool) {
    !f.finalizeJsonl && !f.renameJsonl && (parquet ==> !f.closeParquet && !f.renameParquet)
  }

  /** The staging names of a fragment, and the names its outputs get. */
  function Staging(path: Path, parquet: bool): set<FileName> {
    {Temp(path)} + if parquet then {Temp(ParquetOf(path))} else {}
  }

  function Outputs(path: Path, parquet: bool): set<FileName> {
    {Final(path)} + if parquet then {Final(ParquetOf(path))} else {}
  }

  /** A directory with the finished fragment in it and no staging file of it. */
  function Published(disk: Disk, path: Path, parquet: bool, items: seq<Item>): Disk {
    var withJsonl := Unstaged(disk, path, parquet)[Final(path) := JsonLines(items)];
    if parquet then withJsonl[Final(ParquetOf(path)) := ParquetRows(items)] else withJsonl
  }

  function Unstaged(disk: Disk, path: Path, parquet: bool): Disk {
    disk - Staging(path, parquet)
  }

  /** Only the last rename fails, after the record file was published: cleaning up then removes that file. */
  predicate FailsLast(f: Faults, parquet: bool) {
    parquet && !f.finalizeJsonl && !f.closeParquet && !f.renameJsonl && f.renameParquet
  }

  /** What is where after a fragment is published: both outputs in full, no staging file, everything else as it was. */
  lemma PublishedIs(disk: Disk, path: Path, parquet: bool, items: seq<Item>, f: FileName)
    requires path.Fragment?
    ensures var twin, after := ParquetFragment(path.graph, path.phase, path.shard), Published(disk, path, parquet, items);
            && Final(path) in after && after[Final(path)] == JsonLines(items) && Temp(path) !in after
            && (parquet ==> Final(twin) in after && after[Final(twin)] == ParquetRows(items) && Temp(twin) !in after)
            && (f.path != path && !(parquet && f.path == twin) ==> (f in after <==> f in disk) && (f in disk ==> after[f] == disk[f]))
  {
  }

  /** What is where after a fragment is given up: no staging file, everything else as it was. */
  lemma UnstagedIs(disk: Disk, path: Path, parquet: bool, f: FileName)
    requires path.Fragment?
    ensures var twin := ParquetFragment(path.graph, path.phase, path.shard);
            f in Unstaged(disk, path, parquet) <==> f in disk && f != Temp(path) && !(parquet && f == Temp(twin))
    ensures f in Unstaged(disk, path, parquet) ==> Unstaged(disk, path, parquet)[f] == disk[f]
  {
  }

  lemma StageUnstages(disk: Disk, path: Path, parquet: bool, f: FileName, content: Content)
    requires f in Staging(path, parquet)
    ensures Unstaged(disk[f := content], path, parquet) == Unstaged(disk, path, parquet)
  {
  }

  lemma BegunUnstages(before: Disk, path: Path, parquet: bool)
    ensures Unstaged(before + map f | f in Staging(path, parquet) :: Partial, path, parquet) == Unstaged(before, path, parquet)
  {
  }

  lemma RenameJsonlUnstages(disk: Disk, path: Path, parquet: bool)
    requires path.Fragment? && Temp(path) in disk
    ensures Unstaged(Rename(disk, path), path, parquet) == Unstaged(disk, path, parquet)[Final(path) := disk[Temp(path)]]
    ensures parquet && Temp(ParquetOf(path)) in disk ==> Temp(ParquetOf(path)) in Rename(disk, path) && Rename(disk, path)[Temp(ParquetOf(path))] == disk[Temp(ParquetOf(path))]
    ensures !parquet ==> Rename(disk, path) == Unstaged(Rename(disk, path), path, parquet)
    ensures Temp(path) !in Rename(disk, path)
  {
  }

  lemma RenameParquetUnstages(disk: Disk, path: Path)
    requires path.Fragment? && Temp(ParquetOf(path)) in disk && Temp(path) !in disk
    ensures Rename(disk, ParquetOf(path)) == Unstaged(disk, path, true)[Final(ParquetOf(path)) := disk[Temp(ParquetOf(path))]]
  {
  }

  lemma WithdrawJsonl(disk: Disk, path: Path, content: Content)
    ensures disk[Final(path) := content] - {Final(path)} == disk - {Final(path)}
  {
  }

  lemma NothingThere(disk: Disk, path: Path, parquet: bool)
    requires disk.Keys !! (Staging(path, parquet) + Outputs(path, parquet))
    ensures Unstaged(disk, path, parquet) == disk && disk - {Final(path)} == disk
  {
    assert Final(path) in Outputs(path, parquet);
  }

  class FragmentWriter {
    const path: Path
    const parquet: bool
    var disk: Disk
    var items: seq<Item>
    var closed: bool
    ghost var before: Disk

    /** While open, the directory is the one before with the staging files begun. */
    ghost predicate Open()
      reads this
    {
      path.Fragment? && !closed && disk == before + map f | f in Staging(path, parquet) :: Partial
    }

    constructor (path: Path, parquet: bool, disk: Disk)
      requires path.Fragment?
      ensures Open() && before == disk && items == [] && this.path == path && this.parquet == parquet
    {
      this.path, this.parquet, items, closed, before := path, parquet, [], false, disk;
      var staged := disk[Temp(path) := Partial];
      if parquet {
        staged := staged[Temp(ParquetOf(path)) := Partial];
      }
      this.disk := staged;
    }

    /** `Write`: one record more; a failing sink aborts the fragment; nothing once closed. */
    method Write(item: Item, jsonlFault: bool, parquetFault: bool) returns (ok: bool)
      requires closed || Open()
      modifies this`items, this`disk, this`closed
      ensures ok == (!old(closed) && !jsonlFault && !(parquet && parquetFault))
      ensures ok ==> Open() && items == old(items) + [item] && disk == old(disk)
      ensures !ok ==> closed && items == old(items) && disk == if old(closed) then old(disk) else Unstaged(before, path, parquet)
    {
      if closed {
        return false;
      }
      if jsonlFault {
        Abort();
        return false;
      }
      if parquet && parquetFault {
        Abort();
        return false;
      }
      items := items + [item];
      return true;
    }

    /** `cleanup`: staging files go, and the record file too if it was already published. */
    method Cleanup(jsonlPublished: bool)
      modifies this`disk
      ensures disk == Unstaged(old(disk), path, parquet) - if jsonlPublished then {Final(path)} else {}
      ensures !jsonlPublished ==> disk == Unstaged(old(disk), path, parquet)
    {
      disk := disk - {Temp(path)};
      if parquet {
        disk := disk - {Temp(ParquetOf(path))};
      }
      if jsonlPublished {
        disk := disk - {Final(path)};
      }
    }

    /** `Close`: without a fault the fragment is published whole; with any fault neither output of it is there; once only. */
    method Close(faults: Faults) returns (ok: bool)
      requires closed || Open()
      modifies this`disk, this`closed
      ensures closed && ok == (!old(closed) && NoFault(faults, parquet))
      ensures old(closed) ==> disk == old(disk)
      ensures ok ==> disk == Published(before, path, parquet, items)
      ensures !ok && !old(closed) ==> disk == Unstaged(before, path, parquet) - if FailsLast(faults, parquet) then {Final(path)} else {}
      ensures !ok && !old(closed) && before.Keys !! (Staging(path, parquet) + Outputs(path, parquet)) ==> disk == before
    {
      if closed {
        return false;
      }
      BegunUnstages(before, path, parquet);
      if before.Keys !! (Staging(path, parquet) + Outputs(path, parquet)) {
        NothingThere(before, path, parquet);
      }
      assert Temp(path) in Staging(path, parquet) && (parquet ==> Temp(ParquetOf(path)) in Staging(path, parquet));
      hide Unstaged, Staging, Outputs, Rename;
      closed := true;
      if faults.finalizeJsonl {
        Cleanup(false);
        return false;
      }
      StageUnstages(disk, path, parquet, Temp(path), JsonLines(items));
      disk := disk[Temp(path) := JsonLines(items)];
      if parquet {
        if faults.closeParquet {
          Cleanup(false);
          return false;
        }
        StageUnstages(disk, path, parquet, Temp(ParquetOf(path)), ParquetRows(items));
        disk := disk[Temp(ParquetOf(path)) := ParquetRows(items)];
      }
      if faults.renameJsonl {
        Cleanup(false);
        return false;
      }
      RenameJsonlUnstages(disk, path, parquet);
      disk := Rename(disk, path);
      if parquet {
        if faults.renameParquet {
          WithdrawJsonl(Unstaged(before, path, parquet), path, JsonLines(items));
          Cleanup(true);
          return false;
        }
        RenameParquetUnstages(disk, path);
        disk := Rename(disk, ParquetOf(path));
      }
      return true;
    }

    /** `Abort`: an open fragment leaves nothing behind, a closed one is left alone. */
    method Abort()
      requires closed || Open()
      modifies this`disk, this`closed
      ensures closed && disk == if old(closed) then old(disk) else Unstaged(before, path, parquet)
    {
      if !closed {
        closed := true;
        Cleanup(false);
        assert disk == Unstaged(before, path, parquet);
      }
    }
  }

  /** Which effect of opening a fragment fails: creating its record file, the compressor behind it, or the Parquet file. */
  datatype OpenFaults = OpenFaults(createJsonl: bool, compressor: bool, createParquet: bool)

  /**
   * `newFragmentWriter`: a stale staging file of the records is overwritten, one of the Parquet rows is refused. When opening fails
   * after the record file was created, no staging file of the records is left, not even a stale one.
   */
  method OpenFragment(path: Path, parquet: bool, disk: Disk, faults: OpenFaults) returns (writer: Option<FragmentWriter>, after: Disk)
    requires path.Fragment?
    ensures writer.None? <==> faults.createJsonl || faults.compressor || (parquet && (faults.createParquet || Temp(ParquetOf(path)) in disk))
    ensures writer.None? ==> after == if faults.createJsonl then disk else disk - {Temp(path)}
    ensures writer.Some? ==> fresh(writer.value) && writer.value.Open() && writer.value.before == disk && writer.value.disk == after
    ensures writer.Some? ==> writer.value.path == path && writer.value.parquet == parquet && writer.value.items == []
  {
    if faults.createJsonl {
      return None, disk;
    }
    var staged := disk[Temp(path) := Partial];
    if faults.compressor || (parquet && (faults.createParquet || Temp(ParquetOf(path)) in disk)) {
      after := staged - {Temp(path)};
      assert after == disk - {Temp(path)};
      return None, after;
    }
    var w := new FragmentWriter(path, parquet, disk);
    return Some(w), w.disk;
  }
}
