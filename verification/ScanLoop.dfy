/** What the first loop of a scan leaves: every row as it was, or where a file was registered. */
module ScanLoop {
  import opened GoStrings
  import opened Scan
  import opened ScanRuns

  predicate Owns(row: Row, location: string, file: File) {
    row.location == location && row.role == file.role && row.filename == file.filename
  }

  /** The row is one found file's and lies at the path of another. */
  predicate IsStray(row: Row, location: string, files: seq<File>) {
    exists i, j :: 0 <= i < |files| && 0 <= j < |files| && i != j
                   && Owns(row, location, files[i]) && LiesAt(row, location, files[j].path)
  }

  function Strays(t: Table, location: string, files: seq<File>): set<nat> {
    set id | id in t.rows && IsStray(t.rows[id], location, files)
  }

  /** What registering the file leaves in its row. */
  predicate Placed(env: Env, location: string, row: Row, file: File) {
    Owns(row, location, file) && row.path == file.path && row.present && row.size == file.size
    && env.hash(file.path).Some? && row.sha == env.hash(file.path).value.sha
  }

  function ExistingAt(env: Env, t: Table, location: string, file: File): Option<nat> {
    LastAt(env.rank, t.rows, t.nextId, location, file.path)
  }

  /** The first loop leaves the file alone. */
  predicate Skips(env: Env, opts: Options, known: Table, location: string, file: File) {
    var existing := ExistingAt(env, known, location, file);
    existing.Some? && known.rows[existing.value].present && !opts.verifyChecksums
        && known.rows[existing.value].size == file.size
  }

  predicate PlacedBy(env: Env, opts: Options, known: Table, location: string, row: Row, files: seq<File>, i: nat)
    requires i <= |files|
  {
    exists j :: 0 <= j < i && !Skips(env, opts, known, location, files[j]) && Placed(env, location, row, files[j])
  }

  /** A file that a row lies at is registered under that row's kind. */
  predicate RightKind(env: Env, known: Table, location: Location, file: File, kind: string) {
    var existing := ExistingAt(env, known, location.id, file);
    existing.Some? ==> kind == known.rows[existing.value].kind
  }

  /**
   * The row `id` is where the file was registered; every other row at the file's path was there before and is
   * unchanged.
   */
  ghost predicate Arrived(env: Env, known: Table, t: Table, location: Location, file: File, id: nat) {
    && id in t.rows && Placed(env, location.id, t.rows[id], file)
        && RightKind(env, known, location, file, t.rows[id].kind)
    && forall other :: other in t.rows && other != id && LiesAt(t.rows[other], location.id, file.path) ==>
         other in known.rows && t.rows[other] == known.rows[other]
  }

  ghost predicate HasArrived(env: Env, known: Table, t: Table, location: Location, file: File) {
    exists id :: Arrived(env, known, t, location, file, id)
  }

  /** Every row is as it was, or is where one of the first `i` files was registered. */
  ghost predicate Explained(env: Env, location: string, opts: Options, known: Table, t: Table, files: seq<File>, i: nat)
    requires i <= |files|
  {
    forall id :: id in t.rows ==>
      (id in known.rows && t.rows[id] == known.rows[id]) || PlacedBy(env, opts, known, location, t.rows[id], files, i)
  }

  /** Each of the first `i` files is registered, unless it was left alone. */
  ghost predicate AllArrived(env: Env, location: Location, opts: Options, known: Table, t: Table, files: seq<File>,
      i: nat)
    requires i <= |files|
  {
    forall j :: 0 <= j < i && !Skips(env, opts, known, location.id, files[j]) ==>
        HasArrived(env, known, t, location, files[j])
  }

  ghost predicate Kept(known: Table, t: Table) {
    known.nextId <= t.nextId && forall id :: id in known.rows ==> id in t.rows && SameEntry(known.rows[id], t.rows[id])
  }

  /** The table after the first loop handled `i` files. */
  ghost predicate LoopOn(env: Env, location: Location, opts: Options, known: Table, t: Table, files: seq<File>, i: nat)
    requires i <= |files|
  {
    TableOk(t, location.id) && Kept(known, t)
    && Explained(env, location.id, opts, known, t, files, i) && AllArrived(env, location, opts, known, t, files, i)
  }

  lemma Apart(files: seq<File>, i: nat, j: nat)
    requires Listing(files) && i < |files| && j < |files| && i != j
    ensures files[i].path != files[j].path && !(files[i].role == files[j].role
        && files[i].filename == files[j].filename)
  {
    var a, b := if i < j then i else j, if i < j then j else i;
    assert files[a].path != files[b].path && !(files[a].role == files[b].role
        && files[a].filename == files[b].filename);
  }

  /** A file registered earlier in the loop stays registered. */
  lemma StaysArrived(env: Env, location: Location, known: Table, t: Table, files: seq<File>, i: nat, j: nat,
      kind: string, hashed: Hashed)
    requires Listing(files) && TableOk(t, location.id) && i < |files| && j < |files| && i != j
    requires HasArrived(env, known, t, location, files[j])
    ensures HasArrived(env, known, Ingested(t, location, files[i], kind, hashed), location, files[j])
  {
    var id :| Arrived(env, known, t, location, files[j], id);
    Apart(files, i, j);
    IngestAt(t, location, files[i], kind, hashed);
    assert Arrived(env, known, Ingested(t, location, files[i], kind, hashed), location, files[j], id);
  }

  lemma ExplainedLater(env: Env, location: string, opts: Options, known: Table, t: Table, files: seq<File>, i: nat)
    requires i < |files| && Explained(env, location, opts, known, t, files, i)
    ensures Explained(env, location, opts, known, t, files, i + 1)
  {
    forall id | id in t.rows && PlacedBy(env, opts, known, location, t.rows[id], files, i)
      ensures PlacedBy(env, opts, known, location, t.rows[id], files, i + 1)
    {
      var j :| 0 <= j < i && !Skips(env, opts, known, location, files[j])
          && Placed(env, location, t.rows[id], files[j]);
    }
  }

  /** Registering file `i` registers it. */
  lemma ArrivesNow(env: Env, location: Location, opts: Options, known: Table, t: Table, files: seq<File>, i: nat,
      kind: string, hashed: Hashed)
    requires Listing(files) && i < |files| && LoopOn(env, location, opts, known, t, files, i)
    requires env.hash(files[i].path) == Some(hashed) && hashed.size == files[i].size
    requires RightKind(env, known, location, files[i], kind)
    ensures Arrived(env, known, Ingested(t, location, files[i], kind, hashed), location, files[i],
        IngestId(t, location, files[i], kind))
  {
    IngestAt(t, location, files[i], kind, hashed);
    forall j | 0 <= j < i ensures files[j].path != files[i].path {
      Apart(files, i, j);
    }
  }

  lemma ExplainedNow(env: Env, location: Location, opts: Options, known: Table, t: Table, files: seq<File>, i: nat,
      kind: string, hashed: Hashed)
    requires i < |files| && TableOk(t, location.id) && Explained(env, location.id, opts, known, t, files, i)
    requires env.hash(files[i].path) == Some(hashed) && hashed.size == files[i].size
        && !Skips(env, opts, known, location.id, files[i])
    ensures Explained(env, location.id, opts, known, Ingested(t, location, files[i], kind, hashed), files, i + 1)
  {
    var id, next := IngestId(t, location, files[i], kind), Ingested(t, location, files[i], kind, hashed);
    ExplainedLater(env, location.id, opts, known, t, files, i);
    IngestAt(t, location, files[i], kind, hashed);
    assert Placed(env, location.id, next.rows[id], files[i]);
  }

  lemma KeptNow(known: Table, t: Table, location: Location, file: File, kind: string, hashed: Hashed)
    requires TableOk(t, location.id) && Kept(known, t)
    ensures TableOk(Ingested(t, location, file, kind, hashed), location.id)
        && Kept(known, Ingested(t, location, file, kind, hashed))
  {
    IngestAt(t, location, file, kind, hashed);
  }

  lemma IngestTurnOn(env: Env, location: Location, opts: Options, known: Table, t: Table, files: seq<File>, i: nat,
      kind: string, hashed: Hashed)
    requires Listing(files) && i < |files| && LoopOn(env, location, opts, known, t, files, i)
    requires env.hash(files[i].path) == Some(hashed) && hashed.size == files[i].size
        && !Skips(env, opts, known, location.id, files[i])
    requires RightKind(env, known, location, files[i], kind)
    ensures LoopOn(env, location, opts, known, Ingested(t, location, files[i], kind, hashed), files, i + 1)
  {
    var next := Ingested(t, location, files[i], kind, hashed);
    KeptNow(known, t, location, files[i], kind, hashed);
    ExplainedNow(env, location, opts, known, t, files, i, kind, hashed);
    ArrivesNow(env, location, opts, known, t, files, i, kind, hashed);
    forall j | 0 <= j < i + 1 && !Skips(env, opts, known, location.id, files[j])
        ensures HasArrived(env, known, next, location, files[j]) {
      if j < i { StaysArrived(env, location, known, t, files, i, j, kind, hashed); }
    }
  }

  lemma SkipTurnOn(env: Env, location: Location, opts: Options, known: Table, t: Table, files: seq<File>, i: nat)
    requires i < |files| && LoopOn(env, location, opts, known, t, files, i)
        && Skips(env, opts, known, location.id, files[i])
    ensures LoopOn(env, location, opts, known, t, files, i + 1)
  {
    ExplainedLater(env, location.id, opts, known, t, files, i);
  }

  lemma TurnOn(env: Env, location: Location, opts: Options, known: Table, t: Table, files: seq<File>, i: nat)
    requires Listing(files) && ErrorFree(env, files) && i < |files| && LoopOn(env, location, opts, known, t, files, i)
    ensures LoopOn(env, location, opts, known, WithFile(env, location, opts, known, t, files[i]), files, i + 1)
  {
    if Skips(env, opts, known, location.id, files[i]) {
      SkipTurnOn(env, location, opts, known, t, files, i);
    } else {
      var existing, hashed := ExistingAt(env, known, location.id, files[i]), env.hash(files[i].path).value;
      var kind := if existing.Some? then known.rows[existing.value].kind
                  else NewKind(env, t, location, files[i], hashed.sha);
      IngestTurnOn(env, location, opts, known, t, files, i, kind, hashed);
    }
  }

  lemma {:induction false} LoopGoesOn(env: Env, location: Location, opts: Options, known: Table, files: seq<File>,
      i: nat)
    requires Listing(files) && ErrorFree(env, files) && i <= |files| && TableOk(known, location.id)
    ensures LoopOn(env, location, opts, known, WithFiles(env, location, opts, known, files[..i]), files, i)
  {
    if i > 0 {
      LoopGoesOn(env, location, opts, known, files, i - 1);
      TurnOn(env, location, opts, known, WithFiles(env, location, opts, known, files[..i - 1]), files, i - 1);
      assert files[..i][..i - 1] == files[..i - 1];
    }
  }

  lemma WholeLoop(env: Env, location: Location, opts: Options, known: Table, files: seq<File>)
    requires Listing(files) && ErrorFree(env, files) && TableOk(known, location.id)
    ensures LoopOn(env, location, opts, known, WithFiles(env, location, opts, known, files), files, |files|)
  {
    LoopGoesOn(env, location, opts, known, files, |files|);
    assert files[..|files|] == files;
  }

  /** A registered row is at its own file's path. */
  lemma PlacedIsNoStray(env: Env, opts: Options, known: Table, location: string, row: Row, files: seq<File>)
    requires Listing(files) && PlacedBy(env, opts, known, location, row, files, |files|)
    ensures !IsStray(row, location, files) && row.path in PathsOf(files)
  {
    var i :| 0 <= i < |files| && Placed(env, location, row, files[i]);
    assert Placed(env, location, row, files[i]) && files[i] in files;
    assert row.role == files[i].role && row.filename == files[i].filename;
    forall j | 0 <= j < |files| && j != i
        ensures !Owns(row, location, files[j]) && !LiesAt(row, location, files[j].path) {
      Apart(files, i, j);
    }
  }

  lemma StraysShrink(env: Env, location: Location, opts: Options, known: Table, t: Table, files: seq<File>)
    requires Listing(files) && LoopOn(env, location, opts, known, t, files, |files|)
    ensures Strays(t, location.id, files) <= Strays(known, location.id, files)
    ensures forall id ::
              id in t.rows && (t.rows[id].path !in PathsOf(files) || IsStray(t.rows[id], location.id, files)) ==>
                id in known.rows && t.rows[id] == known.rows[id]
  {
    forall id | id in t.rows && (t.rows[id].path !in PathsOf(files) || IsStray(t.rows[id], location.id, files))
      ensures id in known.rows && t.rows[id] == known.rows[id]
    {
      if PlacedBy(env, opts, known, location.id, t.rows[id], files, |files|) {
        PlacedIsNoStray(env, opts, known, location.id, t.rows[id], files);
      }
    }
  }
}
