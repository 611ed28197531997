/** Schema migrations tracked by user_version (internal/db/db.go, migrate; agent_setup.go builds the list). */
module Migrations {
  import opened GoStrings

  /**
   * Where one migration's transaction ends when something goes wrong; a crash is a fault after which nothing else
   * runs.
   */
  datatype Fault = NoFault | BeginFails | ExecFails | PragmaFails | CommitFails | CommitUnreported

  datatype Database<D> = Database(content: D, version: nat)

  /** Runs one script against a database's content; None is an SQL error. */
  type Exec<!D> = (D, string) -> Option<D>

  /** Each script applied once, in order. */
  function Fold<D>(exec: Exec<D>, base: D, scripts: seq<string>): Option<D>
    decreases |scripts|
  {
    if scripts == [] then Some(base)
    else match Fold(exec, base, scripts[..|scripts| - 1])
      case None => None
      case Some(content) => exec(content, scripts[|scripts| - 1])
  }

  /** One turn of the loop: the script and the version bump commit together or not at all. */
  function Turn<D>(exec: Exec<D>, db: Database<D>, script: string, fault: Fault): (Database<D>, bool) {
    match exec(db.content, script)
    case None => (db, false)
    case Some(content) =>
      if fault.NoFault? then (Database(content, db.version + 1), true)
      else if fault.CommitUnreported? then (Database(content, db.version + 1), false)
      else (db, false)
  }

  function Migrated<D>(exec: Exec<D>, db: Database<D>, migrations: seq<string>, faults: nat -> Fault): (Database<D>,
      bool)
    decreases |migrations| - db.version
  {
    if db.version > |migrations| then (db, false)
    else if db.version == |migrations| then (db, true)
    else
      var (next, ok) := Turn(exec, db, migrations[db.version], faults(db.version));
      if ok then Migrated(exec, next, migrations, faults) else (next, false)
  }

  class Connection<D> {
    const exec: Exec<D>
    var content: D
    var version: nat

    constructor (exec: Exec<D>, content: D, version: nat)
      ensures this.exec == exec && this.content == content && this.version == version
    {
      this.exec, this.content, this.version := exec, content, version;
    }

    function StateOf(): Database<D>
      reads this
    {
      Database(content, version)
    }

    /** migrate: the loop over the scripts not yet applied, one transaction each. */
    method Migrate(migrations: seq<string>, faults: nat -> Fault) returns (ok: bool)
      modifies this
      ensures (StateOf(), ok) == Migrated(exec, old(StateOf()), migrations, faults)
    {
      var current := version;
      if current > |migrations| {
        return false;
      }
      for i := current to |migrations|
        invariant version == i
        invariant Migrated(exec, StateOf(), migrations, faults) == Migrated(exec, old(StateOf()), migrations, faults)
      {
        var fault := faults(i);
        if fault.BeginFails? {
          return false;
        }
        var result := exec(content, migrations[i]);
        if fault.ExecFails? || result.None? {
          return false;
        }
        if fault.PragmaFails? || fault.CommitFails? {
          return false;
        }
        content, version := result.value, i + 1;
        if fault.CommitUnreported? {
          return false;
        }
      }
      return true;
    }
  }

  // ----- What every run keeps -----

  /** The database is the fold of the first `version` scripts of the list. */
  predicate IsPrefixOf<D(==)>(exec: Exec<D>, base: D, db: Database<D>, list: seq<string>) {
    db.version <= |list| && Fold(exec, base, list[..db.version]) == Some(db.content)
  }

  /**
   * Whatever fails and wherever it stops, the database is a fold of the list's first scripts; success means all of
   * them.
   */
  lemma {:induction false} MigrateKeepsFold<D>(exec: Exec<D>, base: D, db: Database<D>, list: seq<string>,
      all: seq<string>, faults: nat -> Fault)
    requires list <= all && IsPrefixOf(exec, base, db, all)
    ensures var (next, ok) := Migrated(exec, db, list, faults);
            && IsPrefixOf(exec, base, next, all) && db.version <= next.version
            && (ok ==> next.version == |list| && Fold(exec, base, list) == Some(next.content))
            && (db.version > |list| ==> !ok && next == db)
            && next.version <= (if db.version > |list| then db.version else |list|)
    decreases |list| - db.version
  {
    assert list == all[..|list|];
    if db.version < |list| {
      var (next, ok) := Turn(exec, db, list[db.version], faults(db.version));
      if next != db {
        assert all[..db.version + 1][..db.version] == all[..db.version];
        assert IsPrefixOf(exec, base, next, all);
      }
      if ok {
        MigrateKeepsFold(exec, base, next, list, all, faults);
      }
    }
  }

  /** The turn at a version goes through: nothing fails, and the script runs on what is there. */
  predicate GoesThrough<D>(exec: Exec<D>, base: D, list: seq<string>, faults: nat -> Fault, v: nat)
    requires v < |list|
  {
    faults(v).NoFault? && Fold(exec, base, list[..v + 1]).Some?
  }

  /** The first turn from a version on that does not. */
  predicate StopsAt<D>(exec: Exec<D>, base: D, list: seq<string>, faults: nat -> Fault, version: nat, v: nat) {
    version <= v < |list| && !GoesThrough(exec, base, list, faults, v)
    && forall u: nat :: version <= u < v ==> GoesThrough(exec, base, list, faults, u)
  }

  /**
   * Where an opening stops, and what it answers: success if and only if every turn goes through, a commit whose error
   * is reported included. Otherwise it stops at the first turn that does not, with that script applied only when its
   * script ran and the error came after the commit.
   */
  lemma {:induction false} MigrateStopsExactly<D>(exec: Exec<D>, base: D, db: Database<D>, list: seq<string>,
      faults: nat -> Fault)
    requires IsPrefixOf(exec, base, db, list)
    ensures Migrated(exec, db, list, faults).1 <==>
        forall v: nat :: db.version <= v < |list| ==> GoesThrough(exec, base, list, faults, v)
    ensures forall v: nat :: StopsAt(exec, base, list, faults, db.version, v) ==>
              Migrated(exec, db, list, faults).0.version ==
                if faults(v).CommitUnreported? && Fold(exec, base, list[..v + 1]).Some? then v + 1 else v
    decreases |list| - db.version
  {
    if db.version < |list| {
      var (next, ok) := Turn(exec, db, list[db.version], faults(db.version));
      assert list[..db.version + 1][..db.version] == list[..db.version];
      if ok {
        MigrateStopsExactly(exec, base, next, list, faults);
        assert GoesThrough(exec, base, list, faults, db.version);
      } else {
        assert !GoesThrough(exec, base, list, faults, db.version);
      }
    }
  }

  /** One opening of the database by some build, with its list and the faults that strike. */
  datatype Opening = Opening(list: seq<string>, faults: nat -> Fault)

  function Opened<D>(exec: Exec<D>, db: Database<D>, openings: seq<Opening>): Database<D>
    decreases |openings|
  {
    if openings == [] then db
        else Opened(exec, Migrated(exec, db, openings[0].list, openings[0].faults).0, openings[1..])
  }

  lemma {:induction false} OpeningsKeepFold<D>(exec: Exec<D>, base: D, db: Database<D>, openings: seq<Opening>,
      all: seq<string>)
    requires IsPrefixOf(exec, base, db, all)
    requires forall i :: 0 <= i < |openings| ==> openings[i].list <= all
    ensures IsPrefixOf(exec, base, Opened(exec, db, openings), all)
    decreases |openings|
  {
    if openings != [] {
      MigrateKeepsFold(exec, base, db, openings[0].list, all, openings[0].faults);
      OpeningsKeepFold(exec, base, Migrated(exec, db, openings[0].list, openings[0].faults).0, openings[1..], all);
    }
  }

  /**
   * Path independence: after any openings by builds whose lists are all prefixes of one list, with faults and crashes
   * anywhere and older builds in between, an opening that succeeds leaves exactly what a fresh database opened
   * without a fault by the same build holds.
   */
  lemma PathIndependence<D>(exec: Exec<D>, base: D, openings: seq<Opening>, all: seq<string>, list: seq<string>,
      faults: nat -> Fault)
    requires list <= all && forall i :: 0 <= i < |openings| ==> openings[i].list <= all
    requires Migrated(exec, Opened(exec, Database(base, 0), openings), list, faults).1
    ensures Migrated(exec, Opened(exec, Database(base, 0), openings), list, faults)
            == Migrated(exec, Database(base, 0), list, (i: nat) => NoFault)
  {
    var before := Opened(exec, Database(base, 0), openings);
    assert all[..0] == [];
    OpeningsKeepFold(exec, base, Database(base, 0), openings, all);
    MigrateKeepsFold(exec, base, before, list, all, faults);
    FreshOpenSucceeds(exec, base, Database(base, 0), list, Migrated(exec, before, list, faults).0.content);
  }

  /** Without faults a list whose scripts all run opens to its end. */
  lemma {:induction false} FreshOpenSucceeds<D>(exec: Exec<D>, base: D, db: Database<D>, list: seq<string>, end: D)
    requires IsPrefixOf(exec, base, db, list) && Fold(exec, base, list) == Some(end)
    ensures Migrated(exec, db, list, (i: nat) => NoFault) == (Database(end, |list|), true)
    decreases |list| - db.version
  {
    assert list[..|list|] == list;
    if db.version < |list| {
      FoldRuns(exec, base, list, db.version + 1);
      assert list[..db.version + 1][..db.version] == list[..db.version];
      var content := Fold(exec, base, list[..db.version + 1]).value;
      FreshOpenSucceeds(exec, base, Database(content, db.version + 1), list, end);
    }
  }

  lemma {:induction false} FoldRuns<D>(exec: Exec<D>, base: D, list: seq<string>, n: nat)
    requires n <= |list| && Fold(exec, base, list).Some?
    ensures Fold(exec, base, list[..n]).Some?
    decreases |list|
  {
    if n == |list| {
      assert list[..n] == list;
    } else {
      FoldRuns(exec, base, list[..|list| - 1], n);
      assert list[..|list| - 1][..n] == list[..n];
    }
  }

  // ----- Why scripts are only ever appended -----

  /** A database that records the scripts run on it. */
  function Log(content: seq<string>, script: string): Option<seq<string>> {
    Some(content + [script])
  }

  lemma {:induction false} LogFold(list: seq<string>)
    ensures Fold(Log, [], list) == Some(list)
  {
    if list != [] {
      var earlier := list[..|list| - 1];
      LogFold(earlier);
      assert Log(earlier, list[|list| - 1]) == Some(earlier + [list[|list| - 1]]);
      assert list == earlier + [list[|list| - 1]];
    }
  }

  lemma {:induction false} LogMigrated(done: seq<string>, list: seq<string>, version: nat)
    requires version <= |list|
    ensures Migrated(Log, Database(done, version), list, (i: nat) => NoFault) ==
        (Database(done + list[version..], |list|), true)
    decreases |list| - version
  {
    if version < |list| {
      LogMigrated(done + [list[version]], list, version + 1);
      assert done + [list[version]] + list[version + 1..] == done + list[version..];
    } else {
      assert done + list[version..] == done;
    }
  }

  /**
   * What the older build left at the end of its list, upgraded by the newer build, is what the newer build makes
   * afresh.
   */
  ghost predicate UpgradesAs<D>(exec: Exec<D>, base: D, older: seq<string>, newer: seq<string>) {
    Fold(exec, base, older).Some? && Fold(exec, base, newer).Some? ==>
      Migrated(exec, Database(Fold(exec, base, older).value, |older|), newer, (i: nat) => NoFault)
      == Migrated(exec, Database(base, 0), newer, (i: nat) => NoFault)
  }

  lemma ExtensionUpgrades<D>(exec: Exec<D>, base: D, older: seq<string>, newer: seq<string>)
    requires older <= newer
    ensures UpgradesAs(exec, base, older, newer)
  {
    if Fold(exec, base, older).Some? && Fold(exec, base, newer).Some? {
      assert newer[..|older|] == older && newer[..0] == [];
      FreshOpenSucceeds(exec, base, Database(Fold(exec, base, older).value, |older|), newer,
          Fold(exec, base, newer).value);
      FreshOpenSucceeds(exec, base, Database(base, 0), newer, Fold(exec, base, newer).value);
    }
  }

  /**
   * Why scripts are only ever appended: upgrading gives what a fresh database has, for every database whose scripts
   * run, if and only if the new list extends the old one. One that records its scripts tells the difference
   * otherwise.
   */
  lemma UpgradeMatchesFreshExactly(older: seq<string>, newer: seq<string>)
    ensures older <= newer <==> forall exec: Exec<seq<string>>, base: seq<string> ::
        UpgradesAs(exec, base, older, newer)
  {
    if older <= newer {
      forall exec: Exec<seq<string>>, base: seq<string> ensures UpgradesAs(exec, base, older, newer) {
        ExtensionUpgrades(exec, base, older, newer);
      }
    }
    if forall exec: Exec<seq<string>>, base: seq<string> :: UpgradesAs(exec, base, older, newer) {
      assert UpgradesAs(Log, [], older, newer);
      LogFold(older);
      LogFold(newer);
      LogMigrated([], newer, 0);
      if |older| <= |newer| {
        LogMigrated(older, newer, |older|);
        assert [] + newer[0..] == newer && older + newer[|older|..] == newer;
        assert older == newer[..|older|];
      }
    }
  }
}
