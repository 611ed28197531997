/** What every scan keeps, and the pieces of a scan. */
module ScanRuns {
  import opened GoStrings
  import opened Scan

  // ----- What no scan touches, whatever fails -----

  /**
   * From one table to another: other locations' rows are the same; a row of the location keeps its identity and its
   * expectation; it is gone only when it had no expectation; new rows have new ids, lie in the location and expect
   * nothing.
   */
  ghost predicate Framed(before: Table, after: Table, location: string) {
    && before.nextId <= after.nextId
    && (forall id :: id in after.rows ==> id < after.nextId)
    && (forall id :: id in before.rows && before.rows[id].location != location ==>
        id in after.rows && after.rows[id] == before.rows[id])
    && (forall id :: id in before.rows && before.rows[id].expected != "" ==> id in after.rows)
    && (forall id :: id in before.rows && id in after.rows ==> SameEntry(before.rows[id], after.rows[id]))
    && (forall id :: id in after.rows && id !in before.rows ==>
          before.nextId <= id && after.rows[id].location == location && after.rows[id].expected == "")
  }

  predicate SameEntry(a: Row, b: Row) {
    a.location == b.location && a.role == b.role && a.kind == b.kind && a.filename == b.filename
        && a.expected == b.expected
  }

  ghost predicate IdsBelow(t: Table) {
    forall id :: id in t.rows ==> id < t.nextId
  }

  lemma IngestFramed(before: Table, t: Table, location: Location, file: File, kind: string, hashed: Hashed)
    requires IdsBelow(before) && Framed(before, t, location.id)
    ensures Framed(before, Ingested(t, location, file, kind, hashed), location.id)
  {
  }

  lemma WithFileFramed(env: Env, location: Location, opts: Options, known: Table, t: Table, file: File)
    requires IdsBelow(known) && Framed(known, t, location.id)
    ensures Framed(known, WithFile(env, location, opts, known, t, file), location.id)
  {
    var next := WithFile(env, location, opts, known, t, file);
    if next != t {
      var existing := LastAt(env.rank, known.rows, known.nextId, location.id, file.path);
      var hashed := env.hash(file.path).value;
      IngestFramed(known, t, location, file, if existing.Some? then known.rows[existing.value].kind
          else NewKind(env, t, location, file, hashed.sha), hashed);
    }
  }

  lemma {:induction false} FilesFramed(env: Env, location: Location, opts: Options, t: Table, files: seq<File>)
    requires IdsBelow(t)
    ensures Framed(t, WithFiles(env, location, opts, t, files), location.id)
    decreases |files|
  {
    if files != [] {
      var earlier := WithFiles(env, location, opts, t, files[..|files| - 1]);
      var file := files[|files| - 1];
      FilesFramed(env, location, opts, t, files[..|files| - 1]);
      WithFileFramed(env, location, opts, t, earlier, file);
    }
  }

  lemma SettlingFramed(env: Env, location: string, opts: Options, found: set<string>, known: Table, t: Table)
    requires Framed(known, t, location)
    ensures Framed(known, AllSettled(env, location, opts, found, known, t), location)
  {
    var next := AllSettled(env, location, opts, found, known, t);
    SettlingTouches(env, location, opts, found, known, t);
    forall id | id in known.rows && id in next.rows ensures SameEntry(known.rows[id], next.rows[id]) {
      assert SameEntry(known.rows[id], t.rows[id]) && SameEntry(t.rows[id], next.rows[id]);
    }
  }

  /** The second loop removes rows of the location without an expectation, clears presence, and does nothing else. */
  lemma SettlingTouches(env: Env, location: string, opts: Options, found: set<string>, known: Table, t: Table)
    ensures var next := AllSettled(env, location, opts, found, known, t);
            && next.nextId == t.nextId
            && (forall id :: id in next.rows ==> id in t.rows && SameEntry(t.rows[id], next.rows[id]))
            && (forall id :: id in t.rows && !(id in known.rows && known.rows[id].location == location) ==>
                  id in next.rows && next.rows[id] == t.rows[id])
            && (forall id :: id in t.rows && id in known.rows && known.rows[id].expected != "" ==> id in next.rows)
  {
  }

  /**
   * A scan, whichever of its hashes and writes fail, never alters an expectation, never deletes a row that has one, and
   * never touches another location's rows.
   */
  lemma ScanFramed(env: Env, location: Location, opts: Options, t: Table, files: seq<File>)
    requires IdsBelow(t)
    ensures Framed(t, Scanned(env, location, opts, t, files), location.id)
  {
    FilesFramed(env, location, opts, t, files);
    SettlingFramed(env, location.id, opts, PathsOf(files), t, WithFiles(env, location, opts, t, files));
  }

  // ----- Error-free scans -----

  /** Every file hashes, with the size it was listed with, and every write succeeds. */
  ghost predicate ErrorFree(env: Env, files: seq<File>) {
    && Ordered(env.rank)
    && env.recordFails == {} && env.deleteFails == {} && env.markFails == {}
    && forall i :: 0 <= i < |files| ==>
        env.hash(files[i].path).Some? && env.hash(files[i].path).value.size == files[i].size
  }

  /** One entry per path, and per role and filename. */
  ghost predicate Listing(files: seq<File>) {
    && (forall i :: 0 <= i < |files| ==> files[i].path != "")
    && (forall i, j :: 0 <= i < j < |files| ==> files[i].path != files[j].path
                                                && !(files[i].role == files[j].role
                                                    && files[i].filename == files[j].filename))
  }

  /** Ids are below the next one, and the unique index holds in the location. */
  ghost predicate TableOk(t: Table, location: string) {
    && IdsBelow(t)
    && forall a, b :: a in t.rows && b in t.rows && a != b && t.rows[a].location == location ==>
        !SameIdentity(t.rows[a], t.rows[b])
  }

  predicate SameIdentity(a: Row, b: Row) {
    a.location == b.location && a.role == b.role && a.kind == b.kind && a.filename == b.filename
  }

  /** The second loop finds nothing to do. */
  ghost predicate NothingToSettle(opts: Options, t: Table, location: string, found: set<string>) {
    forall id :: id in t.rows && t.rows[id].location == location ==> FateOf(opts, found, t.rows[id]).Stay?
  }

  /** The database lists no two rows at one place. */
  ghost predicate Ordered(rank: nat -> int) {
    forall a, b :: rank(a) == rank(b) ==> a == b
  }

  /** Tables with the same rows at a path have the same last row there. */
  lemma SameLast(rank: nat -> int, t: Table, next: Table, location: string, path: string)
    requires Ordered(rank) && IdsBelow(t) && IdsBelow(next)
    requires forall id :: (id in t.rows && LiesAt(t.rows[id], location, path))
                          <==> (id in next.rows && LiesAt(next.rows[id], location, path))
    ensures LastAt(rank, t.rows, t.nextId, location, path) == LastAt(rank, next.rows, next.nextId, location, path)
  {
    var a, b := LastAt(rank, t.rows, t.nextId, location, path), LastAt(rank, next.rows, next.nextId, location, path);
    if a.Some? { assert a.value in next.rows && LiesAt(next.rows[a.value], location, path); }
    if b.Some? { assert b.value in t.rows && LiesAt(t.rows[b.value], location, path); }
  }

  /** The row an ingest writes. */
  function IngestId(t: Table, location: Location, file: File, kind: string): nat {
    match Holder(t.rows, t.nextId, location.id, file.role, kind, file.filename)
    case Some(id) => id
    case None => t.nextId
  }

  lemma IngestAt(t: Table, location: Location, file: File, kind: string, hashed: Hashed)
    requires TableOk(t, location.id)
    ensures var id, next := IngestId(t, location, file, kind), Ingested(t, location, file, kind, hashed);
            && TableOk(next, location.id)
            && next.rows.Keys == t.rows.Keys + {id} && id < next.nextId && t.nextId <= next.nextId
            && (forall other :: other in t.rows && other != id ==> next.rows[other] == t.rows[other])
            && (id in t.rows ==> IsHolder(t.rows[id], location.id, file.role, kind, file.filename))
            && IsHolder(next.rows[id], location.id, file.role, kind, file.filename)
            && next.rows[id].path == file.path && next.rows[id].present && next.rows[id].sha == hashed.sha
                && next.rows[id].size == hashed.size
            && (id in t.rows ==> next.rows[id] == t.rows[id].(path := file.path, present := true, sha :=
                hashed.sha, size := hashed.size))
  {
  }

  /** The identity of an existing row at its own path is the row itself. */
  lemma ExistingIsHolder(t: Table, location: Location, file: File, id: nat)
    requires TableOk(t, location.id) && id in t.rows && LiesAt(t.rows[id], location.id, file.path)
    requires t.rows[id].role == file.role && t.rows[id].filename == file.filename
    ensures IngestId(t, location, file, t.rows[id].kind) == id
  {
    var found := Holder(t.rows, t.nextId, location.id, file.role, t.rows[id].kind, file.filename);
    assert IsHolder(t.rows[id], location.id, file.role, t.rows[id].kind, file.filename);
  }

}
