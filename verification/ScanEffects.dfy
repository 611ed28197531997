/** What a scan writes, told by reading the table before and after: the kind of a new file, and a gone file's row. */
module ScanEffects {
  import opened GoStrings
  import opened Scan
  import opened ScanLoop
  import opened ScanRuns
  import opened TableScan

  /** A row of the role, with or without its own file, that expects the hash. */
  predicate Wants(env: Env, t: Table, role: string, sha: string, present: bool, id: nat) {
    id in t.rows && t.rows[id].role == role && t.rows[id].present == present
    && t.rows[id].expected != "" && env.sameSha(t.rows[id].expected, sha)
  }

  /** The first such row by id. */
  ghost predicate FirstWanting(env: Env, t: Table, role: string, sha: string, present: bool, id: nat) {
    Wants(env, t, role, sha, present, id)
    && forall other: nat :: Wants(env, t, role, sha, present, other) ==> id <= other
  }

  /**
   * The kind of a file at whose path no row lies, as the table tells it: the location's own in a flat one; else the
   * kind under which a registry lists the hash; else that of the first row of the role that expects it, among the
   * present ones, or when there is none among the missing ones; else the one its name tells.
   */
  ghost predicate KindTold(env: Env, t: Table, location: Location, file: File, sha: string, kind: string) {
    && (!env.roleKeyed(location.kind) ==> kind == location.kind)
    && (env.roleKeyed(location.kind) && env.registryKind(sha).Some? ==> kind == env.registryKind(sha).value)
    && (env.roleKeyed(location.kind) && env.registryKind(sha).None? ==>
          && (forall id: nat :: FirstWanting(env, t, file.role, sha, true, id) ==> kind == t.rows[id].kind)
          && (NoneWants(env, t, file.role, sha, true) ==>
                && (forall id: nat :: FirstWanting(env, t, file.role, sha, false, id) ==> kind == t.rows[id].kind)
                && (NoneWants(env, t, file.role, sha, false) ==> kind == env.kindOfName(file.filename, location.kind))))
  }

  ghost predicate NoneWants(env: Env, t: Table, role: string, sha: string, present: bool) {
    forall id: nat :: !Wants(env, t, role, sha, present, id)
  }

  lemma ExpectingIsFirst(env: Env, t: Table, role: string, sha: string, present: bool)
    requires IdsBelow(t)
    ensures var found := Expecting(env, t.rows, t.nextId, role, sha, present);
            && (found.None? <==> NoneWants(env, t, role, sha, present))
            && forall id: nat :: FirstWanting(env, t, role, sha, present, id) <==> found == Some(id)
  {
    var found := Expecting(env, t.rows, t.nextId, role, sha, present);
    forall id: nat ensures Wants(env, t, role, sha, present, id) <==>
        id < t.nextId && id in t.rows && Expects(env, t.rows[id], role, sha, present)
    {
    }
    if found.Some? {
      assert FirstWanting(env, t, role, sha, present, found.value);
    }
  }

  lemma NewKindTold(env: Env, t: Table, location: Location, file: File, sha: string)
    requires IdsBelow(t)
    ensures KindTold(env, t, location, file, sha, NewKind(env, t, location, file, sha))
  {
    ExpectingIsFirst(env, t, file.role, sha, true);
    ExpectingIsFirst(env, t, file.role, sha, false);
  }

  /** The file has a row that says what is on the disk, and no other row is different. */
  ghost predicate WritesRow(t: Table, next: Table, location: Location, file: File, kind: string, hashed: Hashed) {
    exists id: nat ::
      && id in next.rows && next.rows.Keys == t.rows.Keys + {id}
      && (forall other :: other in t.rows && other != id ==> next.rows[other] == t.rows[other])
      && (id in t.rows ==> next.rows[id].expected == t.rows[id].expected)
      && (id !in t.rows ==> next.rows[id].expected == "")
      && IsHolder(next.rows[id], location.id, file.role, kind, file.filename)
      && next.rows[id].path == file.path && next.rows[id].present
      && next.rows[id].sha == hashed.sha && next.rows[id].size == hashed.size
  }

  lemma IngestWrites(t: Table, location: Location, file: File, kind: string, hashed: Hashed)
    requires TableOk(t, location.id)
    ensures WritesRow(t, Ingested(t, location, file, kind, hashed), location, file, kind, hashed)
  {
    IngestAt(t, location, file, kind, hashed);
    assert IngestId(t, location, file, kind) in Ingested(t, location, file, kind, hashed).rows;
  }

  /**
   * One turn of the first loop, `t` being the table at that moment and `known` the one before the scan. A file that the
   * last listed row at its path has as present with that size is left alone, unless checksums are verified; so is one
   * that cannot be hashed or recorded. Every other file is written, under the known row's kind or the one that the
   * table tells.
   */
  lemma TurnWrites(env: Env, location: Location, opts: Options, known: Table, t: Table, file: File)
    requires TableOk(t, location.id)
    ensures var existing := LastAt(env.rank, known.rows, known.nextId, location.id, file.path);
            var next := WithFile(env, location, opts, known, t, file);
            var left := existing.Some? && known.rows[existing.value].present
                && known.rows[existing.value].size == file.size && !opts.verifyChecksums;
            && (left || env.hash(file.path).None? || file.path in env.recordFails ==> next == t)
            && (!left && env.hash(file.path).Some? && file.path !in env.recordFails ==>
                  exists kind ::
                    && WritesRow(t, next, location, file, kind, env.hash(file.path).value)
                    && (existing.Some? ==> kind == known.rows[existing.value].kind)
                    && (existing.None? ==> KindTold(env, t, location, file, env.hash(file.path).value.sha, kind)))
  {
    var existing := LastAt(env.rank, known.rows, known.nextId, location.id, file.path);
    if env.hash(file.path).Some? {
      var hashed := env.hash(file.path).value;
      var kind := if existing.Some? then known.rows[existing.value].kind
                  else NewKind(env, t, location, file, hashed.sha);
      NewKindTold(env, t, location, file, hashed.sha);
      IngestWrites(t, location, file, kind, hashed);
    }
  }

  /** The row lies at the file's path, says what is on the disk, and has the kind that the table tells. */
  ghost predicate TellsKind(env: Env, t: Table, location: Location, file: File, row: Row) {
    && row.location == location.id && row.role == file.role && row.filename == file.filename
    && row.path == file.path && row.present && row.size == file.size
    && env.hash(file.path).Some? && row.sha == env.hash(file.path).value.sha
    && KindTold(env, t, location, file, row.sha, row.kind)
  }

  ghost predicate HasKindTold(env: Env, known: Table, t: Table, location: Location, file: File) {
    exists id :: id in t.rows && TellsKind(env, known, location, file, t.rows[id])
  }

  /**
   * The whole first loop: a file at whose path no row lay, and whose kind is settled before the scan, has a row at its
   * path under the kind that the table before the scan tells.
   */
  lemma NewFileKind(env: Env, location: Location, opts: Options, t: Table, files: seq<File>, i: nat)
    requires Listing(files) && ErrorFree(env, files) && TableOk(t, location.id) && i < |files|
    requires KindsFixed(env, t, location, files) && ExistingAt(env, t, location.id, files[i]).None?
    ensures HasKindTold(env, t, WithFiles(env, location, opts, t, files), location, files[i])
  {
    var moved, sha := WithFiles(env, location, opts, t, files), env.hash(files[i].path).value.sha;
    KindsLoop(env, location, opts, t, files, |files|);
    assert files[..|files|] == files;
    assert RegisteredAs(env, t, moved, location, files[i]);
    var id :| id in moved.rows && Placed(env, location.id, moved.rows[id], files[i])
              && moved.rows[id].kind == NewKind(env, t, location, files[i], sha);
    NewKindTold(env, t, location, files[i], sha);
    assert TellsKind(env, t, location, files[i], moved.rows[id]);
  }

  /**
   * What the second loop does with a row of the location, going by where it lay before the scan. One without a path or
   * with a found one is passed over; a gone file's row is removed when orphans are and nothing expects it, else it is
   * marked missing; a failed write leaves it.
   */
  lemma GoneFileSettled(env: Env, location: Location, opts: Options, t: Table, files: seq<File>, id: nat)
    requires IdsBelow(t) && id in t.rows && t.rows[id].location == location.id
    ensures var row := t.rows[id];
            var moved, next := WithFiles(env, location, opts, t, files), Scanned(env, location, opts, t, files);
            var gone := row.path != "" && !exists i :: 0 <= i < |files| && files[i].path == row.path;
            && id in moved.rows
            && (!gone ==> Look(next.rows, id) == Some(moved.rows[id]))
            && (gone && opts.removeOrphaned && row.expected == "" ==>
                  Look(next.rows, id) == if id in env.deleteFails then Some(moved.rows[id]) else None)
            && (gone && !(opts.removeOrphaned && row.expected == "") ==>
                  id in next.rows
                  && (id in env.markFails || !row.present ==> next.rows[id] == moved.rows[id])
                  && (id !in env.markFails && row.present ==> next.rows[id] == moved.rows[id].(present := false)))
  {
    FilesKeepRows(env, location, opts, t, files, id);
    assert t.rows[id].path in PathsOf(files) <==> exists i :: 0 <= i < |files| && files[i].path == t.rows[id].path;
  }

  lemma {:induction false} FilesKeepRows(env: Env, location: Location, opts: Options, t: Table, files: seq<File>,
      id: nat)
    requires id in t.rows
    ensures id in WithFiles(env, location, opts, t, files).rows
    decreases |files|
  {
    if files != [] {
      FilesKeepRows(env, location, opts, t, files[..|files| - 1], id);
    }
  }
}
