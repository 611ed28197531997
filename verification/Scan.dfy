/** Reconciling artifact rows with a directory (internal/assets/scan.go, assets_artifact_store.go). */
module Scan {
  import opened GoStrings

  /** One registry row, under its id in the table. An empty path or expectation stands for none. */
  datatype Row = Row(location: string, role: string, kind: string, filename: string,
                     path: string, sha: string, expected: string, size: int, present: bool)

  /** The table; ids are handed out in order. */
  datatype Table = Table(rows: map<nat, Row>, nextId: nat)

  datatype Location = Location(id: string, kind: string)

  datatype File = File(role: string, filename: string, path: string, size: int)

  datatype Options = Options(verifyChecksums: bool, removeOrphaned: bool)

  datatype Hashed = Hashed(sha: string, size: int)

  /**
   * The disk, the registry index, the naming rules, and which database writes fail. The query for a location's rows
   * names no order: `rank` is the one the database happens to list them in.
   */
  datatype Env = Env(
    rank: nat -> int,
    hash: string -> Option<Hashed>,
    roleKeyed: string -> bool,
    registryKind: string -> Option<string>,
    sameSha: (string, string) -> bool,
    kindOfName: (string, string) -> string,
    recordFails: set<string>,
    deleteFails: set<nat>,
    markFails: set<nat>)

  // ----- Queries -----

  predicate LiesAt(row: Row, location: string, path: string) {
    row.location == location && row.path == path
  }

  predicate IsHolder(row: Row, location: string, role: string, kind: string, filename: string) {
    row.location == location && row.role == role && row.kind == kind && row.filename == filename
  }

  /** knownByPath: the last listed row of the location with the path. */
  function LastAt(rank: nat -> int, rows: map<nat, Row>, n: nat, location: string, path: string): (id: Option<nat>)
    ensures id.Some? ==> id.value < n && id.value in rows && LiesAt(rows[id.value], location, path)
    ensures forall j :: j < n && j in rows && LiesAt(rows[j], location, path) ==> id.Some? && rank(j) <= rank(id.value)
  {
    if n == 0 then None
    else
      var earlier := LastAt(rank, rows, n - 1, location, path);
      if n - 1 in rows && LiesAt(rows[n - 1], location, path)
          && (earlier.None? || rank(earlier.value) <= rank(n - 1)) then Some(n - 1)
      else earlier
  }

  /** ListByLocation: the ids of the location's rows, in the order of the query. */
  ghost predicate ListsLocation(rank: nat -> int, t: Table, location: string, listing: seq<nat>) {
    && (forall id :: id in listing <==> id < t.nextId && id in t.rows && t.rows[id].location == location)
    && (forall i, j :: 0 <= i < j < |listing| ==> rank(listing[i]) < rank(listing[j]))
  }

  /** The row the unique index finds for an identity. */
  function Holder(rows: map<nat, Row>, n: nat, location: string, role: string, kind: string,
      filename: string): (id: Option<nat>)
    ensures id.Some? ==> id.value < n && id.value in rows && IsHolder(rows[id.value], location, role, kind, filename)
    ensures id.None? ==> forall j :: j < n && j in rows ==> !IsHolder(rows[j], location, role, kind, filename)
  {
    if n == 0 then None
    else if n - 1 in rows && IsHolder(rows[n - 1], location, role, kind, filename) then Some(n - 1)
    else Holder(rows, n - 1, location, role, kind, filename)
  }

  predicate Expects(env: Env, row: Row, role: string, sha: string, present: bool) {
    row.role == role && row.expected != "" && row.present == present && env.sameSha(row.expected, sha)
  }

  /**
   * FindExpectationBySHA among the present rows, or among the missing ones: the first row of the role with the
   * expectation.
   */
  function Expecting(env: Env, rows: map<nat, Row>, n: nat, role: string, sha: string, present: bool): (id: Option<nat>)
    ensures id.Some? ==> id.value < n && id.value in rows && Expects(env, rows[id.value], role, sha, present)
    ensures forall j :: j < n && j in rows && Expects(env, rows[j], role, sha, present) ==> id.Some? && id.value <= j
  {
    if n == 0 then None
    else match Expecting(env, rows, n - 1, role, sha, present)
      case Some(id) => Some(id)
      case None => if n - 1 in rows && Expects(env, rows[n - 1], role, sha, present) then Some(n - 1) else None
  }

  /** scannedKind for a file no known row lies at. */
  function NewKind(env: Env, t: Table, location: Location, file: File, sha: string): string {
    if !env.roleKeyed(location.kind) then location.kind
    else if env.registryKind(sha).Some? then env.registryKind(sha).value
    else
      var found := Expecting(env, t.rows, t.nextId, file.role, sha, true);
      var row := if found.Some? then found else Expecting(env, t.rows, t.nextId, file.role, sha, false);
      if row.Some? then t.rows[row.value].kind else env.kindOfName(file.filename, location.kind)
  }

  // ----- Updates -----

  /** RecordIngested: inserts a row, or updates the one of the same identity; an expectation is kept. */
  function Ingested(t: Table, location: Location, file: File, kind: string, hashed: Hashed): Table {
    match Holder(t.rows, t.nextId, location.id, file.role, kind, file.filename)
    case Some(id) =>
      t.(rows := t.rows[id := t.rows[id].(path := file.path, sha := hashed.sha, size := hashed.size, present := true)])
    case None =>
      Table(t.rows[t.nextId := Row(location.id, file.role, kind, file.filename, file.path, hashed.sha, "",
          hashed.size, true)], t.nextId + 1)
  }

  /** One turn of the first loop; `known` is the table as it was when the scan began. */
  function WithFile(env: Env, location: Location, opts: Options, known: Table, t: Table, file: File): Table {
    var existing := LastAt(env.rank, known.rows, known.nextId, location.id, file.path);
    if existing.Some? && known.rows[existing.value].present && !opts.verifyChecksums
        && known.rows[existing.value].size == file.size then t
    else match env.hash(file.path)
      case None => t
      case Some(hashed) =>
        if file.path in env.recordFails then t
        else
          var kind := if existing.Some? then known.rows[existing.value].kind
              else NewKind(env, t, location, file, hashed.sha);
          Ingested(t, location, file, kind, hashed)
  }

  function WithFiles(env: Env, location: Location, opts: Options, known: Table, files: seq<File>): Table
    decreases |files|
  {
    if files == [] then known
    else WithFile(env, location, opts, known, WithFiles(env, location, opts, known, files[..|files| - 1]),
        files[|files| - 1])
  }

  function PathsOf(files: seq<File>): set<string> {
    set file | file in files :: file.path
  }

  /** What the second loop does with a known row, as the snapshot has it. */
  datatype Fate = Stay | Remove | Miss

  function FateOf(opts: Options, found: set<string>, row: Row): Fate {
    if row.path == "" || row.path in found then Stay
    else if !row.present && !opts.removeOrphaned then Stay
    else if opts.removeOrphaned && row.expected == "" then Remove
    else if row.present then Miss
    else Stay
  }

  /**
   * What the second loop leaves under one id: DeleteRow and MarkMissing go by id, whatever the row has become since.
   */
  function SettledLook(env: Env, location: string, opts: Options, found: set<string>, known: Table, t: Table,
      id: nat): Option<Row> {
    if id !in t.rows then None
    else if id >= known.nextId || id !in known.rows || known.rows[id].location != location then Some(t.rows[id])
    else match FateOf(opts, found, known.rows[id])
      case Stay => Some(t.rows[id])
      case Remove => if id in env.deleteFails then Some(t.rows[id]) else None
      case Miss => if id in env.markFails then Some(t.rows[id]) else Some(t.rows[id].(present := false))
  }

  function AllSettled(env: Env, location: string, opts: Options, found: set<string>, known: Table, t: Table): Table {
    t.(rows := map id | id in t.rows && SettledLook(env, location, opts, found, known, t, id).Some? ::
         SettledLook(env, location, opts, found, known, t, id).value)
  }

  /** The table after one scan. */
  function Scanned(env: Env, location: Location, opts: Options, t: Table, files: seq<File>): Table {
    AllSettled(env, location.id, opts, PathsOf(files), t, WithFiles(env, location, opts, t, files))
  }

  function Look(rows: map<nat, Row>, id: nat): Option<Row> {
    if id in rows then Some(rows[id]) else None
  }

  // ----- The store -----

  class ArtifactStore {
    const env: Env
    var rows: map<nat, Row>
    var nextId: nat

    constructor (env: Env, t: Table)
      ensures this.env == env && StateOf() == t
    {
      this.env, rows, nextId := env, t.rows, t.nextId;
    }

    function StateOf(): Table
      reads this
    {
      Table(rows, nextId)
    }

    /** RecordIngested */
    method RecordIngested(location: Location, file: File, kind: string, hashed: Hashed)
      modifies this
      ensures StateOf() == Ingested(old(StateOf()), location, file, kind, hashed)
    {
      match Holder(rows, nextId, location.id, file.role, kind, file.filename) {
        case Some(id) =>
          rows := rows[id := rows[id].(path := file.path, sha := hashed.sha, size := hashed.size, present := true)];
        case None =>
          rows := rows[nextId := Row(location.id, file.role, kind, file.filename, file.path, hashed.sha, "",
              hashed.size, true)];
          nextId := nextId + 1;
      }
    }

    method MarkMissing(id: nat)
      modifies this`rows
      ensures rows == if id in old(rows) then old(rows)[id := old(rows)[id].(present := false)] else old(rows)
    {
      if id in rows {
        rows := rows[id := rows[id].(present := false)];
      }
    }

    method DeleteRow(id: nat)
      modifies this`rows
      ensures rows == old(rows) - {id}
    {
      rows := rows - {id};
    }

    /** The lookup map of ScanLocation: a later row of the same path replaces an earlier one. */
    method KnownByPath(location: Location, listing: seq<nat>) returns (byPath: map<string, nat>)
      requires ListsLocation(env.rank, StateOf(), location.id, listing)
      ensures forall path :: path != "" ==>
        LastAt(env.rank, rows, nextId, location.id, path) == if path in byPath then Some(byPath[path]) else None
    {
      byPath := map[];
      for i := 0 to |listing|
        invariant KnowsPrefix(env.rank, rows, listing, i, byPath)
      {
        assert listing[i] in listing;
        KnowsOneMore(env.rank, rows, listing, i, byPath);
        if rows[listing[i]].path != "" {
          byPath := byPath[rows[listing[i]].path := listing[i]];
        }
      }
      forall path | path != ""
        ensures LastAt(env.rank, rows, nextId, location.id, path) == if path in byPath then Some(byPath[path]) else None
      {
        LastListed(env.rank, StateOf(), location.id, listing, byPath, path);
      }
    }

    /**
     * ScanLocation: the files found are registered or refreshed, then the known rows whose file is gone are settled.
     * `listing` is what ListByLocation answers before the first loop.
     */
    method ScanLocation(location: Location, opts: Options, files: seq<File>, listing: seq<nat>)
      requires forall i :: 0 <= i < |files| ==> files[i].path != ""
      requires ListsLocation(env.rank, StateOf(), location.id, listing)
      modifies this
      ensures StateOf() == Scanned(env, location, opts, old(StateOf()), files)
    {
      ghost var known := StateOf();
      var snapshot := rows;
      var byPath := KnownByPath(location, listing);
      var found := RefreshFiles(location, opts, files, byPath, snapshot, known);
      SettleRows(location, opts, found, snapshot, listing, known);
    }

    /** The first loop: every found file, against the snapshot of the known rows. */
    method RefreshFiles(location: Location, opts: Options, files: seq<File>, byPath: map<string, nat>,
        snapshot: map<nat, Row>, ghost known: Table)
      returns (found: set<string>)
      requires known == StateOf() && snapshot == rows
      requires forall i :: 0 <= i < |files| ==>
        LastAt(env.rank, rows, nextId, location.id, files[i].path) == if files[i].path in byPath then
            Some(byPath[files[i].path]) else None
      modifies this
      ensures StateOf() == WithFiles(env, location, opts, known, files) && found == PathsOf(files)
    {
      found := {};
      for i := 0 to |files|
        invariant StateOf() == WithFiles(env, location, opts, known, files[..i])
        invariant found == PathsOf(files[..i])
      {
        var file := files[i];
        FilesStep(env, location, opts, known, files, i);
        found := found + {file.path};
        var existing := if file.path in byPath then Some(byPath[file.path]) else None;
        RefreshFile(location, opts, file, existing, snapshot, known);
      }
      assert files[..|files|] == files;
    }

    /** The second loop: every known row, as the snapshot has it. */
    method SettleRows(location: Location, opts: Options, found: set<string>, snapshot: map<nat, Row>,
        listing: seq<nat>, ghost known: Table)
      requires snapshot == known.rows && ListsLocation(env.rank, known, location.id, listing)
      modifies this`rows
      ensures StateOf() == AllSettled(env, location.id, opts, found, known, old(StateOf()))
    {
      ghost var moved := StateOf();
      for i := 0 to |listing|
        invariant nextId == moved.nextId
        invariant forall id :: Look(rows, id) ==
                               if id in listing[..i] then SettledLook(env, location.id, opts, found, known, moved, id)
                               else Look(moved.rows, id)
      {
        assert listing[i] in listing && listing[..i + 1] == listing[..i] + [listing[i]];
        ListedOnce(env.rank, known, location.id, listing, i);
        assert Look(rows, listing[i]) == Look(moved.rows, listing[i]);
        SettleRow(opts, found, snapshot[listing[i]], listing[i]);
      }
      assert listing[..|listing|] == listing;
      SettledFromLook(env, location.id, opts, found, known, moved, rows);
    }

    method RefreshFile(location: Location, opts: Options, file: File, existing: Option<nat>, snapshot: map<nat, Row>,
        ghost known: Table)
      requires snapshot == known.rows && existing == LastAt(env.rank, known.rows, known.nextId, location.id, file.path)
      modifies this
      ensures StateOf() == WithFile(env, location, opts, known, old(StateOf()), file)
    {
      if existing.Some? && snapshot[existing.value].present && !opts.verifyChecksums
          && snapshot[existing.value].size == file.size {
        return;
      }
      var hashed := env.hash(file.path);
      if hashed.None? || file.path in env.recordFails {
        return;
      }
      var kind := if existing.Some? then snapshot[existing.value].kind
          else NewKind(env, StateOf(), location, file, hashed.value.sha);
      RecordIngested(location, file, kind, hashed.value);
    }

    method SettleRow(opts: Options, found: set<string>, row: Row, id: nat)
      modifies this`rows
      ensures forall other :: other != id ==> Look(rows, other) == Look(old(rows), other)
      ensures Look(rows, id) == match FateOf(opts, found, row)
                                case Stay => Look(old(rows), id)
                                case Remove => if id in env.deleteFails then Look(old(rows), id) else None
                                case Miss =>
                                  if id !in old(rows) || id in env.markFails then Look(old(rows), id)
                                  else Some(old(rows)[id].(present := false))
    {
      if row.path == "" || row.path in found {
        return;
      }
      if !row.present && !opts.removeOrphaned {
        return;
      }
      if opts.removeOrphaned && row.expected == "" {
        if id !in env.deleteFails {
          DeleteRow(id);
        }
        return;
      }
      if row.present && id !in env.markFails {
        MarkMissing(id);
      }
    }
  }

  /** The map answers, for every path among the first `n` listed rows, the last of them that has it. */
  ghost predicate KnowsPrefix(rank: nat -> int, rows: map<nat, Row>, listing: seq<nat>, n: nat, byPath: map<string,
      nat>)
    requires n <= |listing| && forall i :: 0 <= i < |listing| ==> listing[i] in rows
  {
    && (forall path :: path in byPath ==>
          path != "" && byPath[path] in listing[..n] && byPath[path] in rows && rows[byPath[path]].path == path)
    && (forall j :: 0 <= j < n && rows[listing[j]].path != "" ==>
          rows[listing[j]].path in byPath && rank(listing[j]) <= rank(byPath[rows[listing[j]].path]))
  }

  lemma KnowsOneMore(rank: nat -> int, rows: map<nat, Row>, listing: seq<nat>, n: nat, byPath: map<string, nat>)
    requires n < |listing| && (forall i :: 0 <= i < |listing| ==> listing[i] in rows)
    requires forall i, j :: 0 <= i < j < |listing| ==> rank(listing[i]) < rank(listing[j])
    requires KnowsPrefix(rank, rows, listing, n, byPath)
    ensures var path := rows[listing[n]].path;
            KnowsPrefix(rank, rows, listing, n + 1, if path != "" then byPath[path := listing[n]] else byPath)
  {
    assert listing[..n + 1] == listing[..n] + [listing[n]];
  }

  lemma LastListed(rank: nat -> int, t: Table, location: string, listing: seq<nat>, byPath: map<string, nat>,
      path: string)
    requires ListsLocation(rank, t, location, listing) && path != ""
    requires forall i :: 0 <= i < |listing| ==> listing[i] in t.rows
    requires KnowsPrefix(rank, t.rows, listing, |listing|, byPath)
    ensures LastAt(rank, t.rows, t.nextId, location, path) == if path in byPath then Some(byPath[path]) else None
  {
    var found := LastAt(rank, t.rows, t.nextId, location, path);
    if path in byPath {
      assert byPath[path] in listing && LiesAt(t.rows[byPath[path]], location, path);
      assert found.value in listing;
    }
  }

  lemma FilesStep(env: Env, location: Location, opts: Options, known: Table, files: seq<File>, i: nat)
    requires i < |files|
    ensures WithFiles(env, location, opts, known, files[..i + 1])
            == WithFile(env, location, opts, known, WithFiles(env, location, opts, known, files[..i]), files[i])
    ensures PathsOf(files[..i + 1]) == PathsOf(files[..i]) + {files[i].path}
  {
    assert files[..i + 1][..i] == files[..i] && files[..i + 1] == files[..i] + [files[i]];
  }

  lemma ListedOnce(rank: nat -> int, t: Table, location: string, listing: seq<nat>, i: nat)
    requires ListsLocation(rank, t, location, listing) && i < |listing|
    ensures listing[i] !in listing[..i]
  {
    forall j | 0 <= j < i ensures listing[j] != listing[i] {
      assert rank(listing[j]) < rank(listing[i]);
    }
  }

  lemma SettledFromLook(env: Env, location: string, opts: Options, found: set<string>, known: Table, t: Table,
      rows: map<nat, Row>)
    requires forall id :: Look(rows, id) == SettledLook(env, location, opts, found, known, t, id)
    ensures t.(rows := rows) == AllSettled(env, location, opts, found, known, t)
  {
    var expected := AllSettled(env, location, opts, found, known, t).rows;
    forall id ensures id in rows <==> id in expected {
      assert Look(rows, id) == SettledLook(env, location, opts, found, known, t, id);
    }
    forall id | id in rows ensures rows[id] == expected[id] {
      assert Look(rows, id) == SettledLook(env, location, opts, found, known, t, id);
    }
  }
}
