/** Exactly when one scan is enough: when it rewrites no row that it goes on to remove or to mark missing. */
module OneScan {
  import opened GoStrings
  import opened Scan
  import opened ScanRuns
  import opened ScanLoop
  import opened ScanConvergence

  /** The second loop is after the row, going by where it lay before the first. */
  predicate Doomed(opts: Options, t: Table, location: string, found: set<string>, id: nat) {
    id in t.rows && t.rows[id].location == location && !FateOf(opts, found, t.rows[id]).Stay?
  }

  /** The first loop rewrites no row the second is after. */
  ghost predicate NoneLost(env: Env, location: Location, opts: Options, t: Table, files: seq<File>) {
    forall id :: Doomed(opts, t, location.id, PathsOf(files), id) ==>
      Look(WithFiles(env, location, opts, t, files).rows, id) == Some(t.rows[id])
  }

  /** A file was registered in a doomed row. */
  ghost predicate Lost(env: Env, location: Location, opts: Options, t: Table, files: seq<File>, i: nat, id: nat)
    requires i < |files|
  {
    && Doomed(opts, t, location.id, PathsOf(files), id) && !Skips(env, opts, t, location.id, files[i])
    && Arrived(env, t, WithFiles(env, location, opts, t, files), location, files[i], id)
  }

  /** A doomed row that was rewritten is one in which a file was registered. */
  lemma RewrittenIsLost(env: Env, location: Location, opts: Options, t: Table, files: seq<File>, id: nat)
      returns (i: nat)
    requires Listing(files) && ErrorFree(env, files) && TableOk(t, location.id)
    requires Doomed(opts, t, location.id, PathsOf(files), id)
    requires Look(WithFiles(env, location, opts, t, files).rows, id) != Some(t.rows[id])
    ensures i < |files| && Lost(env, location, opts, t, files, i, id)
  {
    var moved := WithFiles(env, location, opts, t, files);
    WholeLoop(env, location, opts, t, files);
    assert PlacedBy(env, opts, t, location.id, moved.rows[id], files, |files|);
    i :| 0 <= i < |files| && !Skips(env, opts, t, location.id, files[i])
        && Placed(env, location.id, moved.rows[id], files[i]);
    assert HasArrived(env, t, moved, location, files[i]);
    var there :| Arrived(env, t, moved, location, files[i], there);
    assert Placed(env, location.id, moved.rows[id], files[i]) && LiesAt(moved.rows[id], location.id, files[i].path);
  }

  // ----- A lost row shows in the next scan -----

  /** Without strays a row at a found path is passed over by the second loop and stays at its path in the first. */
  lemma FoundRowStays(env: Env, location: Location, opts: Options, t: Table, files: seq<File>, i: nat, id: nat)
    requires Listing(files) && ErrorFree(env, files) && TableOk(t, location.id) && Strays(t, location.id, files) == {}
    requires i < |files| && id in t.rows && LiesAt(t.rows[id], location.id, files[i].path)
    ensures var next, moved := Scanned(env, location, opts, t, files), WithFiles(env, location, opts, t, files);
            Look(next.rows, id) == Look(moved.rows, id) && id in moved.rows
                && LiesAt(moved.rows[id], location.id, files[i].path)
  {
    var moved := WithFiles(env, location, opts, t, files);
    WholeLoop(env, location, opts, t, files);
    StraysShrink(env, location, opts, t, moved, files);
    RowsStay(env, location, opts, t, moved, files, i, id);
    assert files[i] in files;
  }

  lemma LostIsGone(env: Env, location: Location, opts: Options, t: Table, files: seq<File>, id: nat)
    requires ErrorFree(env, files) && IdsBelow(t) && Doomed(opts, t, location.id, PathsOf(files), id)
    ensures var next := Scanned(env, location, opts, t, files); id in next.rows ==> !next.rows[id].present
  {
  }

  /**
   * When the file has a row all the same, that row was there before, and the last one known is still the last or the
   * lost one is.
   */
  lemma KnownBefore(env: Env, location: Location, opts: Options, t: Table, files: seq<File>, i: nat, id: nat, row: nat)
    requires Listing(files) && ErrorFree(env, files) && TableOk(t, location.id) && Strays(t, location.id, files) == {}
    requires i < |files| && Lost(env, location, opts, t, files, i, id)
    requires RowFor(env, opts, Scanned(env, location, opts, t, files), location.id, files[i], row)
    requires IdsBelow(Scanned(env, location, opts, t, files))
    ensures var next := Scanned(env, location, opts, t, files);
            var before, now := ExistingAt(env, t, location.id, files[i]), ExistingAt(env, next, location.id, files[i]);
            && before.Some? && now.Some?
            && ((now == before && next.rows[now.value] == t.rows[now.value]) || now.value == id)
  {
    var next, moved := Scanned(env, location, opts, t, files), WithFiles(env, location, opts, t, files);
    SettlingKeepsEntries(env, location, opts, t, files);
    LostIsGone(env, location, opts, t, files, id);
    assert row in t.rows && LiesAt(t.rows[row], location.id, files[i].path);
    var before, now := ExistingAt(env, t, location.id, files[i]), ExistingAt(env, next, location.id, files[i]);
    assert files[i] in files && before.value != id;
    FoundRowStays(env, location, opts, t, files, i, before.value);
    assert LiesAt(next.rows[before.value], location.id, files[i].path);
    if now.value != id {
      assert LiesAt(moved.rows[now.value], location.id, files[i].path);
    }
  }

  lemma LostIsUnstable(env: Env, location: Location, opts: Options, t: Table, files: seq<File>, i: nat, id: nat)
    requires Listing(files) && ErrorFree(env, files) && TableOk(t, location.id) && Strays(t, location.id, files) == {}
    requires i < |files| && Lost(env, location, opts, t, files, i, id)
    ensures !Stable(env, location, opts, Scanned(env, location, opts, t, files), files)
  {
    var next := Scanned(env, location, opts, t, files);
    OneScanSettles(env, location, opts, t, files);
    if Stable(env, location, opts, next, files) {
      var row :| RowFor(env, opts, next, location.id, files[i], row);
      KnownBefore(env, location, opts, t, files, i, id, row);
      LostIsGone(env, location, opts, t, files, id);
      SettledScan(env, location, opts, next, files);
      WholeLoop(env, location, opts, next, files);
      RegisteredElsewhere(env, location, opts, t, files, i, id);
    }
  }

  /** The next scan would have registered the file in the lost row again. */
  lemma RegisteredElsewhere(env: Env, location: Location, opts: Options, t: Table, files: seq<File>, i: nat, id: nat)
    requires Listing(files) && ErrorFree(env, files) && TableOk(t, location.id)
    requires i < |files| && Lost(env, location, opts, t, files, i, id)
    requires var next := Scanned(env, location, opts, t, files);
             var before, now := ExistingAt(env, t, location.id, files[i]), ExistingAt(env, next, location.id, files[i]);
             && before.Some? && now.Some?
             && ((now == before && next.rows[now.value] == t.rows[now.value]) || now.value == id)
    ensures var next := Scanned(env, location, opts, t, files);
        !AllArrived(env, location, opts, next, next, files, |files|)
  {
    var next, moved := Scanned(env, location, opts, t, files), WithFiles(env, location, opts, t, files);
    LostIsGone(env, location, opts, t, files, id);
    SettlingKeepsEntries(env, location, opts, t, files);
    WholeLoop(env, location, opts, t, files);
    assert !Skips(env, opts, next, location.id, files[i]);
    if HasArrived(env, next, next, location, files[i]) {
      var again :| Arrived(env, next, next, location, files[i], again);
      assert Placed(env, location.id, next.rows[again], files[i]) && Placed(env, location.id, moved.rows[id], files[i]);
      assert SameIdentity(moved.rows[again], moved.rows[id]);
    }
  }

  // ----- When none is lost -----

  /** The rows at a found path are the same after the second loop. */
  lemma FoundRowsSettle(env: Env, location: Location, opts: Options, t: Table, files: seq<File>, i: nat, id: nat)
    requires ErrorFree(env, files) && IdsBelow(t) && NoneLost(env, location, opts, t, files) && i < |files|
    requires var moved := WithFiles(env, location, opts, t, files);
             id in moved.rows && LiesAt(moved.rows[id], location.id, files[i].path)
    ensures Look(Scanned(env, location, opts, t, files).rows, id) ==
        Look(WithFiles(env, location, opts, t, files).rows, id)
  {
    assert files[i] in files;
    assert !Doomed(opts, t, location.id, PathsOf(files), id);
  }

  /** A file's turn depends on the rows at its path, and on the one it is registered in. */
  lemma TurnByRows(env: Env, location: Location, opts: Options, moved: Table, next: Table, file: File)
    requires Ordered(env.rank) && file.path !in env.recordFails && TableOk(moved, location.id)
        && TableOk(next, location.id)
    requires env.hash(file.path).Some? && env.hash(file.path).value.size == file.size
    requires forall id :: id in moved.rows && LiesAt(moved.rows[id], location.id, file.path) ==>
        id in next.rows && next.rows[id] == moved.rows[id]
    requires forall id :: id in next.rows && LiesAt(next.rows[id], location.id, file.path) ==>
        id in moved.rows && next.rows[id] == moved.rows[id]
    requires HasRow(env, opts, moved, location.id, file) && WithFile(env, location, opts, moved, moved, file) == moved
    ensures HasRow(env, opts, next, location.id, file) && WithFile(env, location, opts, next, next, file) == next
  {
    var row :| RowFor(env, opts, moved, location.id, file, row);
    assert RowFor(env, opts, next, location.id, file, row);
    SameLast(env.rank, moved, next, location.id, file.path);
    var existing := ExistingAt(env, moved, location.id, file);
    if !Skips(env, opts, moved, location.id, file) {
      var kind, hashed := moved.rows[existing.value].kind, env.hash(file.path).value;
      var id := IngestId(moved, location, file, kind);
      IngestAt(moved, location, file, kind, hashed);
      assert LiesAt(moved.rows[id], location.id, file.path);
      RegisteredAgain(env, location, next, file, id);
    }
  }

  lemma NoneLostIsStable(env: Env, location: Location, opts: Options, t: Table, files: seq<File>)
    requires Listing(files) && ErrorFree(env, files) && TableOk(t, location.id) && Strays(t, location.id, files) == {}
    requires NoneLost(env, location, opts, t, files)
    ensures Stable(env, location, opts, Scanned(env, location, opts, t, files), files)
  {
    var next := Scanned(env, location, opts, t, files);
    forall i | 0 <= i < |files|
      ensures HasRow(env, opts, next, location.id, files[i]) && WithFile(env, location, opts, next, next, files[i]) ==
          next
    {
      FileStaysSettled(env, location, opts, t, files, i);
    }
    OneScanSettles(env, location, opts, t, files);
    StableFiles(env, location, opts, next, files, |files|);
    assert files[..|files|] == files;
    SettledScan(env, location, opts, next, files);
  }

  lemma FileStaysSettled(env: Env, location: Location, opts: Options, t: Table, files: seq<File>, i: nat)
    requires Listing(files) && ErrorFree(env, files) && TableOk(t, location.id) && Strays(t, location.id, files) == {}
    requires NoneLost(env, location, opts, t, files) && i < |files|
    ensures var next := Scanned(env, location, opts, t, files);
            HasRow(env, opts, next, location.id, files[i]) && WithFile(env, location, opts, next, next, files[i]) ==
                next
  {
    var moved := WithFiles(env, location, opts, t, files);
    WholeLoop(env, location, opts, t, files);
    StraysShrink(env, location, opts, t, moved, files);
    OneScanSettles(env, location, opts, t, files);
    FileIsStable(env, location, opts, t, moved, files, i);
    FileSettles(env, location, opts, t, files, i);
  }

  lemma FileSettles(env: Env, location: Location, opts: Options, t: Table, files: seq<File>, i: nat)
    requires ErrorFree(env, files) && NoneLost(env, location, opts, t, files) && i < |files|
    requires TableOk(t, location.id) && TableOk(Scanned(env, location, opts, t, files), location.id)
    requires var moved := WithFiles(env, location, opts, t, files);
             && TableOk(moved, location.id) && HasRow(env, opts, moved, location.id, files[i])
             && WithFile(env, location, opts, moved, moved, files[i]) == moved
    ensures var next := Scanned(env, location, opts, t, files);
            HasRow(env, opts, next, location.id, files[i]) && WithFile(env, location, opts, next, next, files[i]) ==
                next
  {
    var next, moved := Scanned(env, location, opts, t, files), WithFiles(env, location, opts, t, files);
    SettlingKeepsEntries(env, location, opts, t, files);
    forall id | id in moved.rows && LiesAt(moved.rows[id], location.id, files[i].path)
        ensures id in next.rows && next.rows[id] == moved.rows[id] {
      FoundRowsSettle(env, location, opts, t, files, i, id);
    }
    TurnByRows(env, location, opts, moved, next, files[i]);
  }

  // ----- Main results -----

  /**
   * Exactly when one scan is enough, from any table without strays: when its first loop rewrites no row that its second
   * loop is after.
   */
  lemma OneScanExactly(env: Env, location: Location, opts: Options, t: Table, files: seq<File>)
    requires Listing(files) && ErrorFree(env, files) && TableOk(t, location.id) && Strays(t, location.id, files) == {}
    ensures Stable(env, location, opts, Scanned(env, location, opts, t, files), files) <==>
        NoneLost(env, location, opts, t, files)
  {
    if NoneLost(env, location, opts, t, files) {
      NoneLostIsStable(env, location, opts, t, files);
    } else {
      var id :| Doomed(opts, t, location.id, PathsOf(files), id)
          && Look(WithFiles(env, location, opts, t, files).rows, id) != Some(t.rows[id]);
      var i := RewrittenIsLost(env, location, opts, t, files, id);
      LostIsUnstable(env, location, opts, t, files, i, id);
    }
  }

  /** Every row of the location with a path lies at the path its role and filename give, and so does every file. */
  ghost predicate Canonical(t: Table, location: string, files: seq<File>, pathOf: (string, string) -> string) {
    && (forall r1, f1, r2, f2 :: pathOf(r1, f1) == pathOf(r2, f2) ==> r1 == r2 && f1 == f2)
    && (forall i :: 0 <= i < |files| ==> files[i].path == pathOf(files[i].role, files[i].filename))
    && (forall id :: id in t.rows && t.rows[id].location == location && t.rows[id].path != "" ==>
          t.rows[id].path == pathOf(t.rows[id].role, t.rows[id].filename))
  }

  /** When every known path is canonical one error-free scan is enough. */
  lemma CanonicalScanConverges(env: Env, location: Location, opts: Options, t: Table, files: seq<File>,
      pathOf: (string, string) -> string)
    requires Listing(files) && ErrorFree(env, files) && TableOk(t, location.id)
        && Canonical(t, location.id, files, pathOf)
    ensures Stable(env, location, opts, Scanned(env, location, opts, t, files), files)
  {
    CanonicalHasNoStrays(t, location.id, files, pathOf);
    forall id | Doomed(opts, t, location.id, PathsOf(files), id)
      ensures Look(WithFiles(env, location, opts, t, files).rows, id) == Some(t.rows[id])
    {
      if Look(WithFiles(env, location, opts, t, files).rows, id) != Some(t.rows[id]) {
        var i := RewrittenIsLost(env, location, opts, t, files, id);
        WholeLoop(env, location, opts, t, files);
        CanonicalIsFound(env, location, opts, t, files, pathOf, i, id);
      }
    }
    OneScanExactly(env, location, opts, t, files);
  }

  lemma CanonicalHasNoStrays(t: Table, location: string, files: seq<File>, pathOf: (string, string) -> string)
    requires Listing(files) && Canonical(t, location, files, pathOf)
    ensures Strays(t, location, files) == {}
  {
    forall i, j | 0 <= i < |files| && 0 <= j < |files| && i != j ensures files[i].path != files[j].path {
      Apart(files, i, j);
    }
  }

  /** A canonical row in which a file is registered lies at the file's path, so it is not doomed. */
  lemma CanonicalIsFound(env: Env, location: Location, opts: Options, t: Table, files: seq<File>,
      pathOf: (string, string) -> string, i: nat, id: nat)
    requires Canonical(t, location.id, files, pathOf) && i < |files| && id in t.rows
        && t.rows[id].location == location.id
    requires Kept(t, WithFiles(env, location, opts, t, files))
    requires Arrived(env, t, WithFiles(env, location, opts, t, files), location, files[i], id)
    ensures FateOf(opts, PathsOf(files), t.rows[id]).Stay?
  {
    var moved := WithFiles(env, location, opts, t, files);
    assert Placed(env, location.id, moved.rows[id], files[i]) && SameEntry(t.rows[id], moved.rows[id]);
    assert files[i] in files;
  }
}
