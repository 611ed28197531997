/** Tables on which one scan, or two, are not enough. */
module ScanLimits {
  import opened GoStrings
  import opened Scan
  import opened ScanRuns
  import opened ScanLoop
  import opened ScanConvergence

  /** One scan can lose the row it has just registered: the second loop goes by the stale path of the snapshot. */
  lemma OneScanCanUndo(env: Env, location: Location, opts: Options, file: File, stale: string)
    requires Listing([file]) && ErrorFree(env, [file]) && !env.roleKeyed(location.kind)
    requires stale != "" && stale != file.path
    ensures var t := Table(map[0 :=
        Row(location.id, file.role, location.kind, file.filename, stale, "", "", 0, true)], 1);
            var once := Scanned(env, location, opts, t, [file]);
            && TableOk(t, location.id) && Strays(t, location.id, [file]) == {}
            && 0 in WithFiles(env, location, opts, t, [file]).rows
            && WithFiles(env, location, opts, t, [file]).rows[0].path == file.path
                && WithFiles(env, location, opts, t, [file]).rows[0].present
            && if opts.removeOrphaned then once.rows == map[]
                else once.rows.Keys == {0} && once.rows[0].path == file.path && !once.rows[0].present
  {
    var t := Table(map[0 := Row(location.id, file.role, location.kind, file.filename, stale, "", "", 0, true)], 1);
    assert LastAt(env.rank, t.rows, 1, location.id, file.path).None?;
    assert Holder(t.rows, 1, location.id, file.role, location.kind, file.filename) == Some(0);
    var files := [file];
    assert files[..0] == [] && files[0] == file;
    assert WithFiles(env, location, opts, t, files) == WithFile(env, location, opts, t,
        WithFiles(env, location, opts, t, files[..0]), files[0]);
    var moved := WithFiles(env, location, opts, t, [file]);
    assert moved == WithFile(env, location, opts, t, t, file);
    assert stale !in PathsOf([file]);
  }

  /**
   * With strays, which no writer of the program leaves (JoinedPathsConverge), two scans need not be enough: three
   * files, a row of the first at the second's path and a row of the second at the third's, and after two scans the
   * third file has no row.
   */
  lemma CollisionsNeedMoreScans(env: Env, location: Location, f: File, g: File, h: File)
    requires Listing([f, g, h]) && ErrorFree(env, [f, g, h]) && !env.roleKeyed(location.kind)
    ensures var opts := Options(false, false);
            var t := Table(map[0 := Row(location.id, f.role, location.kind, f.filename, g.path, "", "", g.size, true),
                               1 := Row(location.id, g.role, location.kind, g.filename, h.path, "", "", h.size,
                                   true)], 2);
            var twice := Scanned(env, location, opts, Scanned(env, location, opts, t, [f, g, h]), [f, g, h]);
            && TableOk(t, location.id) && LastAt(env.rank, twice.rows, twice.nextId, location.id, h.path).None?
  {
    var opts, files := Options(false, false), [f, g, h];
    assert files[0].path != files[1].path && files[0].path != files[2].path && files[1].path != files[2].path;
    assert !(files[0].role == files[1].role && files[0].filename == files[1].filename);
    var row0 := Row(location.id, f.role, location.kind, f.filename, g.path, "", "", g.size, true);
    var row1 := Row(location.id, g.role, location.kind, g.filename, h.path, "", "", h.size, true);
    var t := Table(map[0 := row0, 1 := row1], 2);
    var fixed0 := row0.(path := f.path, sha := env.hash(files[0].path).value.sha, size := f.size);
    var once := Table(map[0 := fixed0, 1 := row1], 2);
    StealFirst(env, location, t, files, once);
    var fixed1 := row1.(path := g.path, sha := env.hash(files[1].path).value.sha, size := g.size);
    var twice := Table(map[0 := fixed0, 1 := fixed1], 2);
    StealSecond(env, location, once, files, twice);
  }

  lemma StealFirst(env: Env, location: Location, t: Table, files: seq<File>, once: Table)
    requires |files| == 3 && Listing(files) && ErrorFree(env, files) && !env.roleKeyed(location.kind)
    requires t.nextId == 2 && t.rows.Keys == {0, 1} && t.rows[0].location == t.rows[1].location == location.id
    requires IsHolder(t.rows[0], location.id, files[0].role, location.kind, files[0].filename)
    requires IsHolder(t.rows[1], location.id, files[1].role, location.kind, files[1].filename)
    requires t.rows[0].path == files[1].path && t.rows[0].size == files[1].size && t.rows[0].present
    requires t.rows[1].path == files[2].path && t.rows[1].size == files[2].size && t.rows[1].present
    requires once == t.(rows :=
        t.rows[0 := t.rows[0].(path := files[0].path, sha := env.hash(files[0].path).value.sha, size := files[0].size)])
    ensures Scanned(env, location, Options(false, false), t, files) == once
  {
    var opts := Options(false, false);
    assert files[0].path != files[1].path && files[0].path != files[2].path && files[1].path != files[2].path;
    assert !(files[0].role == files[1].role && files[0].filename == files[1].filename);
    assert LastAt(env.rank, t.rows, 2, location.id, files[0].path).None?;
    assert LastAt(env.rank, t.rows, 2, location.id, files[1].path) == Some(0);
    assert LastAt(env.rank, t.rows, 2, location.id, files[2].path) == Some(1);
    assert Holder(t.rows, 2, location.id, files[0].role, location.kind, files[0].filename) == Some(0);
    assert WithFile(env, location, opts, t, t, files[0]) == once;
    assert WithFile(env, location, opts, t, once, files[1]) == once;
    assert WithFile(env, location, opts, t, once, files[2]) == once;
    ThreeFiles(env, location, opts, t, files);
    StaysWhole(env, location, opts, files, t, once);
  }

  lemma StealSecond(env: Env, location: Location, t: Table, files: seq<File>, twice: Table)
    requires |files| == 3 && Listing(files) && ErrorFree(env, files) && !env.roleKeyed(location.kind)
    requires t.nextId == 2 && t.rows.Keys == {0, 1} && t.rows[0].location == t.rows[1].location == location.id
    requires IsHolder(t.rows[0], location.id, files[0].role, location.kind, files[0].filename)
    requires IsHolder(t.rows[1], location.id, files[1].role, location.kind, files[1].filename)
    requires t.rows[0].path == files[0].path && t.rows[0].size == files[0].size && t.rows[0].present
    requires t.rows[1].path == files[2].path && t.rows[1].size == files[2].size && t.rows[1].present
    requires twice == t.(rows :=
        t.rows[1 := t.rows[1].(path := files[1].path, sha := env.hash(files[1].path).value.sha, size := files[1].size)])
    ensures Scanned(env, location, Options(false, false), t, files) == twice
  {
    var opts := Options(false, false);
    assert files[0].path != files[1].path && files[0].path != files[2].path && files[1].path != files[2].path;
    assert LastAt(env.rank, t.rows, 2, location.id, files[0].path) == Some(0);
    assert LastAt(env.rank, t.rows, 2, location.id, files[1].path).None?;
    assert LastAt(env.rank, t.rows, 2, location.id, files[2].path) == Some(1);
    assert Holder(t.rows, 2, location.id, files[1].role, location.kind, files[1].filename) == Some(1);
    assert WithFile(env, location, opts, t, t, files[0]) == t;
    assert WithFile(env, location, opts, t, t, files[1]) == twice;
    assert WithFile(env, location, opts, t, twice, files[2]) == twice;
    ThreeFiles(env, location, opts, t, files);
    StaysWhole(env, location, opts, files, t, twice);
  }

  lemma ThreeFiles(env: Env, location: Location, opts: Options, t: Table, files: seq<File>)
    requires |files| == 3
    ensures WithFiles(env, location, opts, t, files) ==
            WithFile(env, location, opts, t, WithFile(env, location, opts, t,
                WithFile(env, location, opts, t, t, files[0]), files[1]), files[2])
  {
    assert files[..2][..1] == files[..1] && files[..1][..0] == [];
    assert WithFiles(env, location, opts, t, files[..1]) == WithFile(env, location, opts, t, t, files[0]);
    assert WithFiles(env, location, opts, t, files[..2]) == WithFile(env, location, opts, t,
        WithFiles(env, location, opts, t, files[..1]), files[1]);
  }

  /** When every known row lies at a found path the second loop does nothing. */
  lemma StaysWhole(env: Env, location: Location, opts: Options, files: seq<File>, known: Table, t: Table)
    requires forall id :: id in known.rows ==> known.rows[id].path in PathsOf(files)
    ensures AllSettled(env, location.id, opts, PathsOf(files), known, t) == t
  {
    assert AllSettled(env, location.id, opts, PathsOf(files), known, t).rows == t.rows;
  }
}
