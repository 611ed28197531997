/**
 * When the kinds of the files are settled before a scan, and exactly when the table then tells that one scan is
 * enough.
 */
module TableScan {
  import opened GoStrings
  import opened Scan
  import opened ScanRuns
  import opened ScanLoop
  import opened ScanConvergence
  import opened OneScan

  /** The row expects the hash, whether its own file is present or not. */
  predicate ExpectsHash(env: Env, row: Row, role: string, sha: string) {
    row.role == role && row.expected != "" && env.sameSha(row.expected, sha)
  }

  /**
   * The kind of a file that no row lies at is settled before the scan: the location is flat, or a registry lists the
   * hash, or the rows that expect it, in any location, agree on the kind.
   */
  predicate KindFixed(env: Env, t: Table, location: Location, role: string, sha: string) {
    !env.roleKeyed(location.kind) || env.registryKind(sha).Some?
    || forall a, b ::
         a in t.rows && b in t.rows && ExpectsHash(env, t.rows[a], role, sha)
             && ExpectsHash(env, t.rows[b], role, sha) ==>
           t.rows[a].kind == t.rows[b].kind
  }

  /** The rows of the table before are still there, and no new row expects a hash. */
  ghost predicate KeptPlain(known: Table, t: Table) {
    && Kept(known, t) && IdsBelow(known)
    && (forall id :: id in t.rows && id !in known.rows ==> t.rows[id].expected == "")
  }

  /** The rows that expect a hash are the same throughout the loop, so a settled kind stays settled. */
  lemma NewKindStays(env: Env, known: Table, t: Table, location: Location, file: File, sha: string)
    requires KeptPlain(known, t) && IdsBelow(t) && KindFixed(env, known, location, file.role, sha)
    ensures NewKind(env, t, location, file, sha) == NewKind(env, known, location, file, sha)
  {
    if env.roleKeyed(location.kind) && env.registryKind(sha).None? {
      var now, before := ExpectingAny(env, t, file.role, sha), ExpectingAny(env, known, file.role, sha);
      if now.Some? {
        assert now.value in known.rows && SameEntry(known.rows[now.value], t.rows[now.value]);
        assert ExpectsHash(env, known.rows[now.value], file.role, sha);
      }
      if before.Some? {
        assert ExpectsHash(env, t.rows[before.value], file.role, sha);
      }
    }
  }

  /** FindExpectationBySHA: a present row first, else a missing one. */
  function ExpectingAny(env: Env, t: Table, role: string, sha: string): (id: Option<nat>)
    ensures id.Some? ==> id.value in t.rows && ExpectsHash(env, t.rows[id.value], role, sha)
    ensures IdsBelow(t) && id.None? ==> forall j :: j in t.rows ==> !ExpectsHash(env, t.rows[j], role, sha)
  {
    var found := Expecting(env, t.rows, t.nextId, role, sha, true);
    var missing := Expecting(env, t.rows, t.nextId, role, sha, false);
    assert forall j :: j in t.rows && ExpectsHash(env, t.rows[j], role, sha) ==>
        Expects(env, t.rows[j], role, sha, t.rows[j].present);
    if found.Some? then found else missing
  }

  /** The file is registered under the kind that the table before the scan tells. */
  ghost predicate RegisteredAs(env: Env, known: Table, t: Table, location: Location, file: File)
    requires env.hash(file.path).Some?
  {
    exists id :: id in t.rows && Placed(env, location.id, t.rows[id], file)
                 && t.rows[id].kind == NewKind(env, known, location, file, env.hash(file.path).value.sha)
  }

  lemma StaysRegistered(env: Env, known: Table, t: Table, location: Location, files: seq<File>, i: nat, j: nat,
      kind: string, hashed: Hashed)
    requires Listing(files) && TableOk(t, location.id) && i < |files| && j < |files| && i != j
    requires env.hash(files[j].path).Some? && RegisteredAs(env, known, t, location, files[j])
    ensures RegisteredAs(env, known, Ingested(t, location, files[i], kind, hashed), location, files[j])
  {
    var id :| id in t.rows && Placed(env, location.id, t.rows[id], files[j])
              && t.rows[id].kind == NewKind(env, known, location, files[j], env.hash(files[j].path).value.sha);
    Apart(files, i, j);
    IngestAt(t, location, files[i], kind, hashed);
    assert Placed(env, location.id, t.rows[id], files[j]);
    assert t.rows[id].role == files[j].role && t.rows[id].filename == files[j].filename;
  }

  lemma RegisteredNow(env: Env, known: Table, t: Table, location: Location, file: File, hashed: Hashed)
    requires TableOk(t, location.id) && KeptPlain(known, t) && KindFixed(env, known, location, file.role, hashed.sha)
    requires env.hash(file.path) == Some(hashed) && hashed.size == file.size
    ensures RegisteredAs(env, known, Ingested(t, location, file, NewKind(env, t, location, file, hashed.sha), hashed),
        location, file)
  {
    var kind := NewKind(env, t, location, file, hashed.sha);
    NewKindStays(env, known, t, location, file, hashed.sha);
    IngestAt(t, location, file, kind, hashed);
    assert Placed(env, location.id, Ingested(t, location, file, kind, hashed).rows[IngestId(t, location, file, kind)],
        file);
  }

  /** Every file handled so far that no row lay at is registered under the settled kind. */
  ghost predicate AllRegistered(env: Env, known: Table, t: Table, location: Location, files: seq<File>, i: nat)
    requires ErrorFree(env, files) && i <= |files|
  {
    forall j :: 0 <= j < i && ExistingAt(env, known, location.id, files[j]).None? ==>
      RegisteredAs(env, known, t, location, files[j])
  }

  lemma {:induction false} KindsLoop(env: Env, location: Location, opts: Options, known: Table, files: seq<File>,
      i: nat)
    requires Listing(files) && ErrorFree(env, files) && i <= |files| && TableOk(known, location.id)
    requires KindsFixed(env, known, location, files)
    ensures AllRegistered(env, known, WithFiles(env, location, opts, known, files[..i]), location, files, i)
  {
    if i > 0 {
      KindsLoop(env, location, opts, known, files, i - 1);
      KindsLoopStep(env, location, opts, known, files, i - 1);
    }
  }

  lemma KindsLoopStep(env: Env, location: Location, opts: Options, known: Table, files: seq<File>, i: nat)
    requires Listing(files) && ErrorFree(env, files) && i < |files| && TableOk(known, location.id)
    requires KindsFixed(env, known, location, files)
    requires AllRegistered(env, known, WithFiles(env, location, opts, known, files[..i]), location, files, i)
    ensures AllRegistered(env, known, WithFiles(env, location, opts, known, files[..i + 1]), location, files, i + 1)
  {
    LoopKeeps(env, location, opts, known, files, i);
    KindsTurnAll(env, location, opts, known, WithFiles(env, location, opts, known, files[..i]), files, i);
    FilesStep(env, location, opts, known, files, i);
  }

  lemma LoopKeeps(env: Env, location: Location, opts: Options, known: Table, files: seq<File>, i: nat)
    requires Listing(files) && ErrorFree(env, files) && i <= |files| && TableOk(known, location.id)
    ensures var t := WithFiles(env, location, opts, known, files[..i]); TableOk(t, location.id) && KeptPlain(known, t)
  {
    LoopGoesOn(env, location, opts, known, files, i);
    FilesFramed(env, location, opts, known, files[..i]);
  }

  lemma KindsTurnAll(env: Env, location: Location, opts: Options, known: Table, t: Table, files: seq<File>, i: nat)
    requires Listing(files) && ErrorFree(env, files) && i < |files| && TableOk(t, location.id) && KeptPlain(known, t)
    requires KindsFixed(env, known, location, files) && AllRegistered(env, known, t, location, files, i)
    ensures AllRegistered(env, known, WithFile(env, location, opts, known, t, files[i]), location, files, i + 1)
  {
    forall j | 0 <= j < i + 1 && ExistingAt(env, known, location.id, files[j]).None?
      ensures RegisteredAs(env, known, WithFile(env, location, opts, known, t, files[i]), location, files[j])
    {
      KindsTurn(env, location, opts, known, t, files, i, j);
    }
  }

  lemma KindsTurn(env: Env, location: Location, opts: Options, known: Table, t: Table, files: seq<File>, i: nat, j: nat)
    requires Listing(files) && ErrorFree(env, files) && j <= i < |files| && TableOk(t, location.id)
        && KeptPlain(known, t)
    requires KindsFixed(env, known, location, files) && ExistingAt(env, known, location.id, files[j]).None?
    requires j < i ==> RegisteredAs(env, known, t, location, files[j])
    ensures RegisteredAs(env, known, WithFile(env, location, opts, known, t, files[i]), location, files[j])
  {
    if !Skips(env, opts, known, location.id, files[i]) {
      var existing, hashed := ExistingAt(env, known, location.id, files[i]), env.hash(files[i].path).value;
      if j == i {
        RegisteredNow(env, known, t, location, files[i], hashed);
      } else {
        var kind := if existing.Some? then known.rows[existing.value].kind
                    else NewKind(env, t, location, files[i], hashed.sha);
        StaysRegistered(env, known, t, location, files, i, j, kind, hashed);
      }
    }
  }

  /** The row in which a file was registered has the kind that was settled. */
  lemma ArrivedKind(env: Env, location: Location, opts: Options, t: Table, files: seq<File>, i: nat, id: nat)
    requires Listing(files) && ErrorFree(env, files) && TableOk(t, location.id) && KindsFixed(env, t, location, files)
    requires i < |files| && Arrived(env, t, WithFiles(env, location, opts, t, files), location, files[i], id)
    ensures WithFiles(env, location, opts, t, files).rows[id].kind == RegisteredKind(env, t, location, files[i])
  {
    var moved := WithFiles(env, location, opts, t, files);
    if ExistingAt(env, t, location.id, files[i]).None? {
      KindsLoop(env, location, opts, t, files, |files|);
      assert files[..|files|] == files;
      assert RegisteredAs(env, t, moved, location, files[i]);
      var other :| other in moved.rows && Placed(env, location.id, moved.rows[other], files[i])
                   && moved.rows[other].kind == NewKind(env, t, location, files[i], env.hash(files[i].path).value.sha);
      assert LiesAt(moved.rows[other], location.id, files[i].path);
    }
  }

  /** The kind a file is registered under, as the table before the scan tells it. */
  function RegisteredKind(env: Env, t: Table, location: Location, file: File): string
    requires env.hash(file.path).Some?
  {
    var existing := ExistingAt(env, t, location.id, file);
    if existing.Some? then t.rows[existing.value].kind
    else NewKind(env, t, location, file, env.hash(file.path).value.sha)
  }

  /** The row holds the identity that a file which is not skipped is registered under. */
  predicate Claimed(env: Env, t: Table, location: Location, opts: Options, file: File, id: nat)
    requires id in t.rows && env.hash(file.path).Some?
  {
    !Skips(env, opts, t, location.id, file)
    && IsHolder(t.rows[id], location.id, file.role, RegisteredKind(env, t, location, file), file.filename)
  }

  /** Every file's kind is settled before the scan. */
  ghost predicate KindsFixed(env: Env, t: Table, location: Location, files: seq<File>)
    requires ErrorFree(env, files)
  {
    forall i :: 0 <= i < |files| ==> KindFixed(env, t, location, files[i].role, env.hash(files[i].path).value.sha)
  }

  /**
   * Where the kinds are settled before the scan, in flat locations always, the condition is read off the table and the
   * listing: no row that the second loop is after holds the identity a file will be registered under.
   */
  lemma TableScanExactly(env: Env, location: Location, opts: Options, t: Table, files: seq<File>)
    requires Listing(files) && ErrorFree(env, files) && TableOk(t, location.id) && Strays(t, location.id, files) == {}
    requires KindsFixed(env, t, location, files)
    ensures Stable(env, location, opts, Scanned(env, location, opts, t, files), files) <==>
            forall id, i :: Doomed(opts, t, location.id, PathsOf(files), id) && 0 <= i < |files| ==>
                !Claimed(env, t, location, opts, files[i], id)
  {
    OneScanExactly(env, location, opts, t, files);
    forall id | Doomed(opts, t, location.id, PathsOf(files), id)
      ensures Look(WithFiles(env, location, opts, t, files).rows, id) != Some(t.rows[id])
              <==> exists i :: 0 <= i < |files| && Claimed(env, t, location, opts, files[i], id)
    {
      RewrittenIsClaimed(env, location, opts, t, files, id);
    }
  }

  lemma FlatKindsAreFixed(env: Env, t: Table, location: Location, files: seq<File>)
    requires ErrorFree(env, files) && !env.roleKeyed(location.kind)
    ensures KindsFixed(env, t, location, files)
    ensures forall i :: 0 <= i < |files| && ExistingAt(env, t, location.id, files[i]).None? ==>
              RegisteredKind(env, t, location, files[i]) == location.kind
  {
  }

  lemma RewrittenIsClaimed(env: Env, location: Location, opts: Options, t: Table, files: seq<File>, id: nat)
    requires Listing(files) && ErrorFree(env, files) && TableOk(t, location.id) && KindsFixed(env, t, location, files)
    requires Doomed(opts, t, location.id, PathsOf(files), id)
    ensures Look(WithFiles(env, location, opts, t, files).rows, id) != Some(t.rows[id])
            <==> exists i :: 0 <= i < |files| && Claimed(env, t, location, opts, files[i], id)
  {
    var moved := WithFiles(env, location, opts, t, files);
    WholeLoop(env, location, opts, t, files);
    assert id in moved.rows && SameEntry(t.rows[id], moved.rows[id]);
    if Look(moved.rows, id) != Some(t.rows[id]) {
      var i := RewrittenIsLost(env, location, opts, t, files, id);
      ArrivedKind(env, location, opts, t, files, i, id);
      assert Placed(env, location.id, moved.rows[id], files[i]);
      assert Claimed(env, t, location, opts, files[i], id);
    }
    if i :| 0 <= i < |files| && Claimed(env, t, location, opts, files[i], id) {
      ClaimedIsRewritten(env, location, opts, t, files, i, id);
    }
  }

  lemma ClaimedIsRewritten(env: Env, location: Location, opts: Options, t: Table, files: seq<File>, i: nat, id: nat)
    requires Listing(files) && ErrorFree(env, files) && TableOk(t, location.id) && KindsFixed(env, t, location, files)
    requires Doomed(opts, t, location.id, PathsOf(files), id)
    requires i < |files| && Claimed(env, t, location, opts, files[i], id)
    ensures Look(WithFiles(env, location, opts, t, files).rows, id) != Some(t.rows[id])
  {
    var moved := WithFiles(env, location, opts, t, files);
    WholeLoop(env, location, opts, t, files);
    assert id in moved.rows && SameEntry(t.rows[id], moved.rows[id]);
    assert HasArrived(env, t, moved, location, files[i]);
    var there :| Arrived(env, t, moved, location, files[i], there);
    ArrivedKind(env, location, opts, t, files, i, there);
    assert Placed(env, location.id, moved.rows[there], files[i]);
    assert SameIdentity(moved.rows[there], moved.rows[id]);
    assert files[i] in files;
  }
}
