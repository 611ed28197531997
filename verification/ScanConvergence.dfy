/**
 * Scans of an unchanged directory settle from every table: the number of rows of found files that lie at another found
 * file's path bounds how many scans it takes.
 */
module ScanConvergence {
  import opened GoStrings
  import opened Scan
  import opened ScanRuns
  import opened ScanLoop

  // ----- One scan -----

  /** The second loop removes rows and marks them missing, and nothing else. */
  lemma SettlingKeepsEntries(env: Env, location: Location, opts: Options, t: Table, files: seq<File>)
    ensures var next, moved := Scanned(env, location, opts, t, files), WithFiles(env, location, opts, t, files);
            next.nextId == moved.nextId && forall id :: id in next.rows ==>
              id in moved.rows && SameEntry(next.rows[id], moved.rows[id]) && next.rows[id].path == moved.rows[id].path
  {
  }

  lemma LoopFacts(env: Env, location: Location, opts: Options, t: Table, files: seq<File>)
    requires Listing(files) && ErrorFree(env, files) && TableOk(t, location.id)
    ensures var moved := WithFiles(env, location, opts, t, files);
            && TableOk(moved, location.id) && Strays(moved, location.id, files) <= Strays(t, location.id, files)
            && forall id :: id in moved.rows && moved.rows[id].path !in PathsOf(files) ==>
                id in t.rows && moved.rows[id] == t.rows[id]
  {
    WholeLoop(env, location, opts, t, files);
    StraysShrink(env, location, opts, t, WithFiles(env, location, opts, t, files), files);
  }

  lemma RowIsSettled(env: Env, location: Location, opts: Options, t: Table, files: seq<File>, id: nat)
    requires Listing(files) && ErrorFree(env, files) && TableOk(t, location.id)
    requires var next := Scanned(env, location, opts, t, files);
        id in next.rows && next.rows[id].location == location.id
    ensures FateOf(opts, PathsOf(files), Scanned(env, location, opts, t, files).rows[id]).Stay?
  {
    LoopFacts(env, location, opts, t, files);
  }

  /** After one scan the second loop never finds anything to do again. */
  lemma OneScanSettles(env: Env, location: Location, opts: Options, t: Table, files: seq<File>)
    requires Listing(files) && ErrorFree(env, files) && TableOk(t, location.id)
    ensures var next := Scanned(env, location, opts, t, files);
            && TableOk(next, location.id) && NothingToSettle(opts, next, location.id, PathsOf(files))
            && Strays(next, location.id, files) <= Strays(t, location.id, files)
  {
    var next, moved := Scanned(env, location, opts, t, files), WithFiles(env, location, opts, t, files);
    LoopFacts(env, location, opts, t, files);
    SettlingKeepsEntries(env, location, opts, t, files);
    StraysByEntry(next, moved, location.id, files);
    forall id | id in next.rows && next.rows[id].location == location.id
        ensures FateOf(opts, PathsOf(files), next.rows[id]).Stay? {
      RowIsSettled(env, location, opts, t, files, id);
    }
  }

  lemma StraysByEntry(next: Table, moved: Table, location: string, files: seq<File>)
    requires forall id :: id in next.rows ==>
               id in moved.rows && SameEntry(next.rows[id], moved.rows[id]) && next.rows[id].path == moved.rows[id].path
    ensures Strays(next, location, files) <= Strays(moved, location, files)
  {
    forall id | id in next.rows && IsStray(next.rows[id], location, files)
        ensures IsStray(moved.rows[id], location, files) {
      var i, j :| 0 <= i < |files| && 0 <= j < |files| && i != j
                  && Owns(next.rows[id], location, files[i]) && LiesAt(next.rows[id], location, files[j].path);
      assert Owns(moved.rows[id], location, files[i]) && LiesAt(moved.rows[id], location, files[j].path);
    }
  }

  /** With nothing to settle a scan is its first loop. */
  lemma SettledScan(env: Env, location: Location, opts: Options, t: Table, files: seq<File>)
    requires NothingToSettle(opts, t, location.id, PathsOf(files))
    ensures Scanned(env, location, opts, t, files) == WithFiles(env, location, opts, t, files)
  {
    var next, moved := Scanned(env, location, opts, t, files), WithFiles(env, location, opts, t, files);
    assert next.rows == moved.rows;
  }

  // ----- A scan that moves no stray -----

  /** When no stray was moved, every row that lay at a file's path is still there. */
  lemma RowsStay(env: Env, location: Location, opts: Options, known: Table, t: Table, files: seq<File>, i: nat, id: nat)
    requires Listing(files) && i < |files| && LoopOn(env, location, opts, known, t, files, |files|)
    requires Strays(t, location.id, files) == Strays(known, location.id, files)
    requires id in known.rows && LiesAt(known.rows[id], location.id, files[i].path)
    ensures id in t.rows && LiesAt(t.rows[id], location.id, files[i].path)
  {
    if t.rows[id] != known.rows[id] {
      PlacedIsNoStray(env, opts, known, location.id, t.rows[id], files);
      assert id !in Strays(known, location.id, files);
      var k :| 0 <= k < |files| && Placed(env, location.id, t.rows[id], files[k]);
      assert Placed(env, location.id, t.rows[id], files[k]) && SameEntry(known.rows[id], t.rows[id]);
      assert t.rows[id].role == files[k].role && t.rows[id].filename == files[k].filename;
      assert Owns(known.rows[id], location.id, files[k]);
    }
  }

  /** At the path of a file the loop skipped there are only unchanged rows. */
  lemma SkippedRows(env: Env, location: Location, opts: Options, known: Table, t: Table, files: seq<File>, i: nat,
      id: nat)
    requires Listing(files) && i < |files| && LoopOn(env, location, opts, known, t, files, |files|)
    requires Skips(env, opts, known, location.id, files[i])
    requires id in t.rows && LiesAt(t.rows[id], location.id, files[i].path)
    ensures id in known.rows && t.rows[id] == known.rows[id]
  {
    forall j | 0 <= j < |files| && j != i ensures files[i].path != files[j].path {
      Apart(files, i, j);
    }
  }

  /** A present row at the file's path, with its size and, when checksums are verified, its hash. */
  predicate RowFor(env: Env, opts: Options, t: Table, location: string, file: File, id: nat) {
    && id in t.rows && LiesAt(t.rows[id], location, file.path) && t.rows[id].present && t.rows[id].size == file.size
    && (opts.verifyChecksums ==> env.hash(file.path).Some? && t.rows[id].sha == env.hash(file.path).value.sha)
  }

  ghost predicate HasRow(env: Env, opts: Options, t: Table, location: string, file: File) {
    exists id :: RowFor(env, opts, t, location, file, id)
  }

  /** Then the file has its row, and handling it again changes nothing. */
  lemma FileIsStable(env: Env, location: Location, opts: Options, known: Table, t: Table, files: seq<File>, i: nat)
    requires Listing(files) && ErrorFree(env, files) && i < |files|
        && LoopOn(env, location, opts, known, t, files, |files|)
    requires TableOk(known, location.id) && Strays(t, location.id, files) == Strays(known, location.id, files)
    ensures HasRow(env, opts, t, location.id, files[i])
    ensures WithFile(env, location, opts, t, t, files[i]) == t
  {
    var file, before, now := files[i], ExistingAt(env, known, location.id, files[i]),
        ExistingAt(env, t, location.id, files[i]);
    forall id | id in known.rows && LiesAt(known.rows[id], location.id, file.path)
      ensures id in t.rows && LiesAt(t.rows[id], location.id, file.path)
    {
      RowsStay(env, location, opts, known, t, files, i, id);
    }
    if Skips(env, opts, known, location.id, file) {
      forall id | id in t.rows && LiesAt(t.rows[id], location.id, file.path)
          ensures id in known.rows && t.rows[id] == known.rows[id] {
        SkippedRows(env, location, opts, known, t, files, i, id);
      }
      SameLast(env.rank, known, t, location.id, file.path);
      assert RowFor(env, opts, t, location.id, file, before.value);
    } else {
      var id :| Arrived(env, known, t, location, file, id);
      assert RowFor(env, opts, t, location.id, file, id);
      assert now.Some? && (now.value != id ==> now == before);
      if !Skips(env, opts, t, location.id, file) {
        RegisteredAgain(env, location, t, file, id);
      }
    }
  }

  /** Registering a registered file under the kind of its row changes nothing. */
  lemma RegisteredAgain(env: Env, location: Location, t: Table, file: File, id: nat)
    requires TableOk(t, location.id) && id in t.rows && Placed(env, location.id, t.rows[id], file)
    requires env.hash(file.path).value.size == file.size
    ensures Ingested(t, location, file, t.rows[id].kind, env.hash(file.path).value) == t
  {
    ExistingIsHolder(t, location, file, id);
    IngestAt(t, location, file, t.rows[id].kind, env.hash(file.path).value);
    assert t.rows[id := t.rows[id]] == t.rows;
  }

  lemma {:induction false} StableFiles(env: Env, location: Location, opts: Options, t: Table, files: seq<File>, n: nat)
    requires n <= |files| && forall i :: 0 <= i < n ==> WithFile(env, location, opts, t, t, files[i]) == t
    ensures WithFiles(env, location, opts, t, files[..n]) == t
  {
    if n > 0 {
      StableFiles(env, location, opts, t, files, n - 1);
      assert files[..n][..n - 1] == files[..n - 1];
    }
  }

  // ----- Any number of scans -----

  function Scans(env: Env, location: Location, opts: Options, t: Table, files: seq<File>, n: nat): Table
    decreases n
  {
    if n == 0 then t else Scans(env, location, opts, Scanned(env, location, opts, t, files), files, n - 1)
  }

  /** Every file has its row, and the second loop has nothing to do. */
  ghost predicate InStep(env: Env, location: Location, opts: Options, t: Table, files: seq<File>) {
    && (forall i :: 0 <= i < |files| ==> HasRow(env, opts, t, location.id, files[i]))
    && NothingToSettle(opts, t, location.id, PathsOf(files))
  }

  /** And another scan changes no row. */
  ghost predicate Stable(env: Env, location: Location, opts: Options, t: Table, files: seq<File>) {
    InStep(env, location, opts, t, files) && Scanned(env, location, opts, t, files) == t
  }

  ghost predicate IsSettled(location: Location, opts: Options, t: Table, files: seq<File>) {
    TableOk(t, location.id) && NothingToSettle(opts, t, location.id, PathsOf(files))
  }

  /** A scan of a settled table that leaves as many rows at other files' paths leaves a stable table. */
  lemma UnmovedIsStable(env: Env, location: Location, opts: Options, t: Table, files: seq<File>)
    requires Listing(files) && ErrorFree(env, files) && TableOk(t, location.id)
        && NothingToSettle(opts, t, location.id, PathsOf(files))
    requires Strays(Scanned(env, location, opts, t, files), location.id, files) == Strays(t, location.id, files)
    ensures Stable(env, location, opts, Scanned(env, location, opts, t, files), files)
  {
    var next := Scanned(env, location, opts, t, files);
    OneScanSettles(env, location, opts, t, files);
    SettledScan(env, location, opts, t, files);
    WholeLoop(env, location, opts, t, files);
    forall i | 0 <= i < |files|
      ensures HasRow(env, opts, next, location.id, files[i]) && WithFile(env, location, opts, next, next, files[i]) ==
          next
    {
      FileIsStable(env, location, opts, t, next, files, i);
    }
    StableFiles(env, location, opts, next, files, |files|);
    assert files[..|files|] == files;
    SettledScan(env, location, opts, next, files);
  }

  function StrayCount(location: Location, t: Table, files: seq<File>): nat {
    |Strays(t, location.id, files)|
  }

  /** `step` is one scan; the induction over the number of scans knows no more of it than SettledStep tells. */
  ghost predicate IsScan(env: Env, location: Location, opts: Options, files: seq<File>, step: Table -> Table) {
    forall x {:trigger Scanned(env, location, opts, x, files)} :: step(x) == Scanned(env, location, opts, x, files)
  }

  /** A scan of a settled table is stable, or leaves fewer strays. */
  lemma SettledStep(env: Env, location: Location, opts: Options, step: Table -> Table, t: Table, files: seq<File>)
      returns (done: bool)
    requires Listing(files) && ErrorFree(env, files) && IsSettled(location, opts, t, files)
    requires IsScan(env, location, opts, files, step)
    ensures IsSettled(location, opts, step(t), files)
    ensures done ==> InStep(env, location, opts, step(t), files) && step(step(t)) == step(t)
    ensures !done ==> StrayCount(location, step(t), files) < StrayCount(location, t, files)
  {
    var next := Scanned(env, location, opts, t, files);
    OneScanSettles(env, location, opts, t, files);
    done := Strays(next, location.id, files) == Strays(t, location.id, files);
    if done {
      UnmovedIsStable(env, location, opts, t, files);
      assert Scanned(env, location, opts, next, files) == next;
    } else {
      FewerMembers(Strays(next, location.id, files), Strays(t, location.id, files));
    }
  }

  function Iterate(step: Table -> Table, t: Table, n: nat): Table
    decreases n
  {
    if n == 0 then t else Iterate(step, step(t), n - 1)
  }

  lemma {:induction false} IterateStays(step: Table -> Table, t: Table, n: nat)
    requires step(t) == t
    ensures Iterate(step, t, n) == t
  {
    if n > 0 {
      IterateStays(step, t, n - 1);
    }
  }

  lemma {:induction false} SettledConverges(env: Env, location: Location, opts: Options, step: Table -> Table,
      t: Table, files: seq<File>, n: nat)
    requires Listing(files) && ErrorFree(env, files) && IsSettled(location, opts, t, files)
    requires IsScan(env, location, opts, files, step) && n > StrayCount(location, t, files)
    ensures var end := Iterate(step, t, n); InStep(env, location, opts, end, files) && step(end) == end
    decreases n
  {
    var done := SettledStep(env, location, opts, step, t, files);
    if done {
      IterateStays(step, step(t), n - 1);
    } else {
      SettledConverges(env, location, opts, step, step(t), files, n - 1);
    }
  }

  lemma {:induction false} ScansIterate(env: Env, location: Location, opts: Options, step: Table -> Table, t: Table,
      files: seq<File>, n: nat)
    requires IsScan(env, location, opts, files, step)
    ensures Scans(env, location, opts, t, files, n) == Iterate(step, t, n)
    decreases n
  {
    if n > 0 {
      ScansIterate(env, location, opts, step, Scanned(env, location, opts, t, files), files, n - 1);
    }
  }

  lemma FewerMembers(a: set<nat>, b: set<nat>)
    requires a <= b && a != b
    ensures |a| < |b|
  {
    var x :| x in b && x !in a;
    assert x in b - a && b == a + (b - a);
  }

  lemma FirstStep(env: Env, location: Location, opts: Options, step: Table -> Table, t: Table, files: seq<File>)
    requires Listing(files) && ErrorFree(env, files) && TableOk(t, location.id)
        && IsScan(env, location, opts, files, step)
    ensures IsSettled(location, opts, step(t), files) && StrayCount(location, step(t), files) <= StrayCount(location,
        t, files)
  {
    OneScanSettles(env, location, opts, t, files);
    var before, after := Strays(t, location.id, files), Strays(Scanned(env, location, opts, t, files), location.id,
        files);
    if after != before {
      FewerMembers(after, before);
    }
  }

  /** No present row with a path lacks its file. */
  ghost predicate RowsHaveFiles(location: Location, t: Table, files: seq<File>) {
    forall id :: id in t.rows && t.rows[id].location == location.id && t.rows[id].present && t.rows[id].path != "" ==>
      t.rows[id].path in PathsOf(files)
  }

  lemma StableRowsHaveFiles(env: Env, location: Location, opts: Options, t: Table, files: seq<File>)
    requires Stable(env, location, opts, t, files)
    ensures RowsHaveFiles(location, t, files)
  {
  }

  /**
   * Convergence from every table: when `k` rows of the location are one found file's and lie at another's path, any k
   * + 2 or more error-free scans of an unchanged directory reach a table that a further scan leaves as it is, in
   * which every file has its row and (StableRowsHaveFiles) every present row its file.
   */
  lemma AnyTableConverges(env: Env, location: Location, opts: Options, t: Table, files: seq<File>, n: nat)
    requires Listing(files) && ErrorFree(env, files) && TableOk(t, location.id)
    requires n >= StrayCount(location, t, files) + 2
    ensures Stable(env, location, opts, Scans(env, location, opts, t, files, n), files)
  {
    var step := (x: Table) => Scanned(env, location, opts, x, files);
    IteratedConverges(env, location, opts, step, t, files, n);
    ScansIterate(env, location, opts, step, t, files, n);
  }

  lemma IteratedConverges(env: Env, location: Location, opts: Options, step: Table -> Table, t: Table,
      files: seq<File>, n: nat)
    requires Listing(files) && ErrorFree(env, files) && TableOk(t, location.id)
    requires IsScan(env, location, opts, files, step) && n >= StrayCount(location, t, files) + 2
    ensures var end := Iterate(step, t, n); InStep(env, location, opts, end, files) && step(end) == end
  {
    FirstStep(env, location, opts, step, t, files);
    SettledConverges(env, location, opts, step, step(t), files, n - 1);
  }

  /** Without strays, whatever stale paths the table holds, two scans are enough. */
  lemma TwoScansConverge(env: Env, location: Location, opts: Options, t: Table, files: seq<File>)
    requires Listing(files) && ErrorFree(env, files) && TableOk(t, location.id) && Strays(t, location.id, files) == {}
    ensures Stable(env, location, opts, Scanned(env, location, opts, Scanned(env, location, opts, t, files), files),
        files)
  {
    AnyTableConverges(env, location, opts, t, files, 2);
    var once := Scanned(env, location, opts, t, files);
    assert Scans(env, location, opts, t, files, 2) == Scans(env, location, opts, once, files, 1);
    assert Scans(env, location, opts, once, files, 1) == Scans(env, location, opts,
        Scanned(env, location, opts, once, files), files, 0);
  }

  /**
   * What the writers of a path leave: PathFor joins the location's folder, the role in a role-keyed location, and the
   * filename, and the listing joins the same; a flat listing gives no roles. Only rows that lie at a found file's
   * path are asked for it: stale paths, of another folder or an older layout, may be anything else.
   */
  ghost predicate Joined(env: Env, location: Location, t: Table, files: seq<File>) {
    && (forall id, i :: id in t.rows && 0 <= i < |files| && LiesAt(t.rows[id], location.id, files[i].path) ==>
          t.rows[id].filename == files[i].filename && (env.roleKeyed(location.kind) ==>
              t.rows[id].role == files[i].role))
    && (!env.roleKeyed(location.kind) ==> forall i :: 0 <= i < |files| ==> files[i].role == "")
  }

  /** So from every table the program's own writers leave, with stale paths or without, two scans are enough. */
  lemma JoinedPathsConverge(env: Env, location: Location, opts: Options, t: Table, files: seq<File>)
    requires Listing(files) && ErrorFree(env, files) && TableOk(t, location.id) && Joined(env, location, t, files)
    ensures var twice := Scanned(env, location, opts, Scanned(env, location, opts, t, files), files);
            Stable(env, location, opts, twice, files) && RowsHaveFiles(location, twice, files)
  {
    forall i, j | 0 <= i < |files| && 0 <= j < |files| && i != j
      ensures !(files[i].role == files[j].role && files[i].filename == files[j].filename)
    {
      Apart(files, i, j);
    }
    assert forall id :: id in t.rows ==> !IsStray(t.rows[id], location.id, files);
    TwoScansConverge(env, location, opts, t, files);
    var twice := Scanned(env, location, opts, Scanned(env, location, opts, t, files), files);
    StableRowsHaveFiles(env, location, opts, twice, files);
  }
}
