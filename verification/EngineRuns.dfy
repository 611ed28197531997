/** What every run of the configuration engine keeps, from a successful load on. */
module EngineRuns {
  import opened Engine
  import opened GoStrings
  import opened Hooks
  import opened Json
  import opened Leaves
  import opened MergePatch
  import opened Pointer
  import opened Restart
  import opened Rules
  import opened Schema

  /** One operation on the engine, or an edit of a file from outside. The flags tell which file writes succeed. */
  datatype Op =
    | Save(name: string, body: Fields, actor: string, written: bool)
    | SaveAll(patches: map<string, Fields>, actor: string, failing: set<string>)
    | Restore(name: string, document: Fields, actor: string, written: bool)
    | Load
    | ClearRestart
    | Edit(name: string, file: File)

  ghost function Step(setup: Setup, st: State, op: Op): State {
    match op
    case Save(name, body, actor, written) => Saved(setup, st, name, body, actor, written)
    case SaveAll(patches, actor, failing) => SavedAll(setup, st, patches, actor, failing)
    case Restore(name, document, actor, written) => Restored(setup, st, name, document, actor, written)
    case Load => Loaded(setup, st, setup.names)
    case ClearRestart => st.(pending := map[])
    case Edit(name, file) => st.(files := st.files[name := file])
  }

  ghost function Run(setup: Setup, st: State, ops: seq<Op>): State
    decreases |ops|
  {
    if ops == [] then st else Run(setup, Step(setup, st, ops[0]), ops[1..])
  }

  /** The state after the first load of a fresh engine; Boots tells that the load succeeded. */
  ghost predicate Boots(setup: Setup, files: map<string, File>) {
    forall name :: name in setup.names ==> Loads(setup, files, name)
  }

  ghost function Booted(setup: Setup, files: map<string, File>): State {
    Loaded(setup, State(map[], map[], map[], map[], None, files), setup.names)
  }

  // ----- How one step can change one name -----

  datatype Change = Same | FromSave(body: Fields) | FromRestore(document: Fields) | FromLoad

  ghost predicate Holds(next: State, name: string, raw: Fields, filled: Fields) {
    Look(next.raw, name) == Some(raw) && Look(next.filled, name) == Some(filled)
  }

  ghost predicate Writes(next: State, name: string, raw: Fields) {
    Look(next.files, name) == Some(Parsed(Obj(raw)))
  }

  ghost predicate Explains(setup: Setup, st: State, op: Op, next: State, name: string, change: Change) {
    match change
    case Same => Keeps(st, next, name) && (op.Edit? || Look(st.files, name) == Look(next.files, name))
    case FromSave(body) =>
      && ((op.Save? && op.name == name && op.body == body) || (op.SaveAll? && name in op.patches
          && op.patches[name] == body))
      && Accepted(setup, st, name, body)
      && Holds(next, name, DraftOf(st, name, body).merged, DraftOf(st, name, body).filled)
      && Writes(next, name, DraftOf(st, name, body).merged)
    case FromRestore(document) =>
      var filled := Filled(st.SchemaOf(name), document);
      && op.Restore? && op.name == name && op.document == document
      && Accepts(setup, st.SchemaOf(name), name, filled, filled)
      && Holds(next, name, document, filled) && Writes(next, name, document)
    case FromLoad =>
      && op.Load? && Loads(setup, st.files, name) && next.files == st.files
      && Holds(next, name, ReadRaw(st.files, name).value, Filled(setup.schemas[name], ReadRaw(st.files, name).value))
  }

  lemma {:induction false} DraftsMember(setup: Setup, st: State, names: seq<string>, patches: map<string, Fields>,
      i: nat)
    requires AllAccepted(setup, st, names, patches) && i < |Drafts(st, names, patches)|
    ensures var d := Drafts(st, names, patches)[i];
            d.name in patches && d == DraftOf(st, d.name, patches[d.name])
                && Accepted(setup, st, d.name, patches[d.name])
    decreases |names|
  {
    if i < |Drafts(st, names[..|names| - 1], patches)| {
      DraftsMember(setup, st, names[..|names| - 1], patches, i);
    }
  }

  /** After a list of commits a name holds what it held before, or one of the drafts of that name. */
  lemma {:induction false} CommittedAllAt(st: State, drafts: seq<Draft>, actor: string, name: string) returns (i: int)
    ensures var next := CommittedAll(st, drafts, actor);
            && next.schemas == st.schemas
            && -1 <= i < |drafts|
            && if i == -1 then Keeps(st, next, name) && Look(st.files, name) == Look(next.files, name)
               else
                 drafts[i].name == name && Holds(next, name, drafts[i].merged, drafts[i].filled)
                 && Writes(next, name, drafts[i].merged)
    decreases |drafts|
  {
    i := -1;
    if drafts != [] {
      i := CommittedAllAt(st, drafts[..|drafts| - 1], actor, name);
      if drafts[|drafts| - 1].name == name {
        i := |drafts| - 1;
      }
    }
  }

  /** The turn of one name in a load. */
  lemma LoadedOneAt(setup: Setup, st: State, name: string)
    ensures var next := LoadedOne(setup, st, name);
            && next.files == st.files && next.pending == st.pending
            && (if Loads(setup, st.files, name) then
                  Holds(next, name, ReadRaw(st.files, name).value,
                      Filled(setup.schemas[name], ReadRaw(st.files, name).value))
                else Keeps(st, next, name))
            && Look(next.schemas, name) == if name in setup.schemas then Some(setup.schemas[name])
                else Look(st.schemas, name)
  {
  }

  /** It leaves every other name alone. */
  lemma LoadedOneOther(setup: Setup, st: State, last: string, name: string)
    requires last != name
    ensures var next := LoadedOne(setup, st, last);
            && next.files == st.files && next.pending == st.pending
            && Keeps(st, next, name) && Look(next.schemas, name) == Look(st.schemas, name)
  {
  }

  lemma {:induction false} LoadedAt(setup: Setup, st: State, names: seq<string>, name: string) returns (loaded: bool)
    ensures var next := Loaded(setup, st, names);
            && next.files == st.files && next.pending == st.pending
            && (loaded <==> name in names && Loads(setup, st.files, name))
            && (if loaded then Holds(next, name, ReadRaw(st.files, name).value,
                Filled(setup.schemas[name], ReadRaw(st.files, name).value))
                else Keeps(st, next, name))
            && Look(next.schemas, name) == if name in names && name in setup.schemas then Some(setup.schemas[name])
                else Look(st.schemas, name)
    decreases |names|
  {
    loaded := false;
    if names != [] {
      var earlier, last := names[..|names| - 1], names[|names| - 1];
      assert names == earlier + [last];
      loaded := LoadedAt(setup, st, earlier, name);
      if last == name {
        LoadedOneAt(setup, Loaded(setup, st, earlier), name);
        loaded := Loads(setup, st.files, name);
      } else {
        LoadedOneOther(setup, Loaded(setup, st, earlier), last, name);
      }
    }
  }

  lemma SaveAllExplained(setup: Setup, st: State, op: Op, name: string) returns (change: Change)
    requires op.SaveAll?
    ensures Explains(setup, st, op, SavedAll(setup, st, op.patches, op.actor, op.failing), name, change)
  {
    change := Same;
    if AllAccepted(setup, st, setup.names, op.patches) {
      var drafts := Drafts(st, setup.names, op.patches);
      var i := CommittedAllAt(st, drafts[..WrittenCount(drafts, op.failing)], op.actor, name);
      if i != -1 {
        DraftsMember(setup, st, setup.names, op.patches, i);
        change := FromSave(op.patches[name]);
      }
    }
  }

  lemma StepExplained(setup: Setup, st: State, op: Op, name: string) returns (change: Change)
    ensures Explains(setup, st, op, Step(setup, st, op), name, change)
  {
    var next := Step(setup, st, op);
    change := Same;
    match op {
      case Save(saved, body, actor, written) =>
        if saved == name && SaveOutcome(setup, st, name, body, written).Done? { change := FromSave(body); }
      case Restore(restored, document, actor, written) =>
        if restored == name && RestoreOutcome(setup, st, name, document, written).Done? { change :=
            FromRestore(document); }
      case SaveAll(patches, actor, failing) =>
        change := SaveAllExplained(setup, st, op, name);
      case Load =>
        var loaded := LoadedAt(setup, st, setup.names, name);
        if loaded { change := FromLoad; }
      case ClearRestart =>
      case Edit(_, _) =>
    }
  }

  // ----- Coherence -----

  /**
   * The cached documents of a name: its schema, its raw document, and that document with defaults filled, which is
   * valid.
   */
  ghost predicate NameCoherent(setup: Setup, st: State, name: string) {
    && name in setup.schemas && Look(st.schemas, name) == Some(setup.schemas[name]) && ReasonsGiven(setup.schemas[name])
    && name in st.raw && Look(st.filled, name) == Some(Filled(setup.schemas[name], st.raw[name]))
    && setup.valid(setup.schemas[name], st.filled[name]) == []
  }

  ghost predicate Coherent(setup: Setup, st: State) {
    forall name :: name in setup.names ==> NameCoherent(setup, st, name)
  }

  /** The stored files hold the raw documents. */
  ghost predicate FilesHold(setup: Setup, st: State) {
    forall name :: name in setup.names ==> name in st.raw && ReadRaw(st.files, name) == Some(st.raw[name])
  }

  lemma StepSchemas(setup: Setup, st: State, op: Op, name: string)
    requires NameCoherent(setup, st, name)
    ensures Look(Step(setup, st, op).schemas, name) == Some(setup.schemas[name])
  {
    match op {
      case SaveAll(patches, actor, failing) =>
        var drafts := Drafts(st, setup.names, patches);
        var _ := CommittedAllAt(st, drafts[..WrittenCount(drafts, failing)], actor, name);
      case Load =>
        var _ := LoadedAt(setup, st, setup.names, name);
      case _ =>
    }
  }

  lemma ExplainedIsCoherent(setup: Setup, st: State, op: Op, next: State, name: string, change: Change)
    requires NameCoherent(setup, st, name) && Explains(setup, st, op, next, name, change)
    requires Look(next.schemas, name) == Some(setup.schemas[name])
    ensures NameCoherent(setup, next, name)
    ensures !op.Edit? && ReadRaw(st.files, name) == Some(st.raw[name]) ==>
        ReadRaw(next.files, name) == Some(next.raw[name])
  {
  }

  lemma NameStaysCoherent(setup: Setup, st: State, op: Op, name: string)
    requires NameCoherent(setup, st, name)
    ensures NameCoherent(setup, Step(setup, st, op), name)
    ensures !op.Edit? && ReadRaw(st.files, name) == Some(st.raw[name]) ==>
              ReadRaw(Step(setup, st, op).files, name) == Some(Step(setup, st, op).raw[name])
  {
    var change := StepExplained(setup, st, op, name);
    StepSchemas(setup, st, op, name);
    ExplainedIsCoherent(setup, st, op, Step(setup, st, op), name, change);
  }

  lemma StepCoherent(setup: Setup, st: State, op: Op)
    requires Coherent(setup, st)
    ensures Coherent(setup, Step(setup, st, op))
    ensures FilesHold(setup, st) && !op.Edit? ==> FilesHold(setup, Step(setup, st, op))
  {
    forall name | name in setup.names
      ensures NameCoherent(setup, Step(setup, st, op), name)
      ensures !op.Edit? && ReadRaw(st.files, name) == Some(st.raw[name]) ==>
                ReadRaw(Step(setup, st, op).files, name) == Some(Step(setup, st, op).raw[name])
    {
      assert NameCoherent(setup, st, name);
      NameStaysCoherent(setup, st, op, name);
    }
  }

  lemma BootCoherent(setup: Setup, files: map<string, File>)
    requires Boots(setup, files)
    ensures Coherent(setup, Booted(setup, files)) && FilesHold(setup, Booted(setup, files))
  {
    forall name | name in setup.names
      ensures NameCoherent(setup, Booted(setup, files), name)
      ensures name in Booted(setup, files).raw && ReadRaw(Booted(setup, files).files, name) ==
          Some(Booted(setup, files).raw[name])
    {
      var loaded := LoadedAt(setup, State(map[], map[], map[], map[], None, files), setup.names, name);
    }
  }

  ghost predicate NoEdits(ops: seq<Op>) {
    forall i :: 0 <= i < |ops| ==> !ops[i].Edit?
  }

  lemma {:induction false} RunCoherent(setup: Setup, st: State, ops: seq<Op>)
    requires Coherent(setup, st)
    ensures Coherent(setup, Run(setup, st, ops))
    ensures FilesHold(setup, st) && NoEdits(ops) ==> FilesHold(setup, Run(setup, st, ops))
    decreases |ops|
  {
    if ops != [] {
      StepCoherent(setup, st, ops[0]);
      RunCoherent(setup, Step(setup, st, ops[0]), ops[1..]);
    }
  }

  /**
   * Coherence on every reachable state: after a successful load, whatever is saved, restored, refused, fails to write
   * or is edited from outside, each cached effective document is its raw document filled and is valid; and as long as
   * nobody edits the files from outside, they hold the raw documents.
   */
  lemma EveryRunIsCoherent(setup: Setup, files: map<string, File>, ops: seq<Op>)
    requires Boots(setup, files)
    ensures Coherent(setup, Run(setup, Booted(setup, files), ops))
    ensures NoEdits(ops) ==> FilesHold(setup, Run(setup, Booted(setup, files), ops))
  {
    BootCoherent(setup, files);
    RunCoherent(setup, Booted(setup, files), ops);
  }

  /** Loading again what a run without outside edits stored changes nothing, whether or not the load passes. */
  lemma {:induction false} ReloadChangesNothing(setup: Setup, st: State, names: seq<string>)
    requires Coherent(setup, st) && FilesHold(setup, st)
    requires forall i :: 0 <= i < |names| ==> names[i] in setup.names
    ensures Loaded(setup, st, names) == st
    decreases |names|
  {
    if names != [] {
      var last := names[|names| - 1];
      ReloadChangesNothing(setup, st, names[..|names| - 1]);
      assert NameCoherent(setup, st, last);
      assert st.schemas[last := setup.schemas[last]] == st.schemas;
      assert st.raw[last := st.raw[last]] == st.raw && st.filled[last := st.filled[last]] == st.filled;
    }
  }

  /** Every named file up to the given one that has a patch was written. */
  predicate WritesUpTo(names: seq<string>, patches: map<string, Fields>, failing: set<string>) {
    forall i :: 0 <= i < |names| && names[i] in patches ==> names[i] !in failing
  }

  predicate DistinctNames(names: seq<string>) {
    forall i, j :: 0 <= i < j < |names| ==> names[i] != names[j]
  }

  lemma {:induction false} CountAppend(drafts: seq<Draft>, last: Draft, failing: set<string>)
    ensures WrittenCount(drafts + [last], failing) ==
            WrittenCount(drafts, failing) + if WrittenCount(drafts, failing) == |drafts| && last.name !in failing then
                1 else 0
    decreases |drafts|
  {
    if drafts == [] {
      assert ([] + [last])[1..] == [];
    } else {
      assert (drafts + [last])[1..] == drafts[1..] + [last];
      CountAppend(drafts[1..], last, failing);
    }
  }

  /** All drafts of a list of names are written exactly when no patched name of it fails. */
  lemma {:induction false} AllWritten(st: State, names: seq<string>, patches: map<string, Fields>, failing: set<string>)
    ensures WrittenCount(Drafts(st, names, patches), failing) == |Drafts(st, names, patches)| <==>
        WritesUpTo(names, patches, failing)
    decreases |names|
  {
    if names != [] {
      var earlier := names[..|names| - 1];
      AllWritten(st, earlier, patches, failing);
      assert names == earlier + [names[|names| - 1]];
      if names[|names| - 1] in patches {
        CountAppend(Drafts(st, earlier, patches), DraftOf(st, names[|names| - 1], patches[names[|names| - 1]]),
            failing);
      }
    }
  }

  /** The drafts of a list of names before the first failing write. */
  function WrittenDrafts(st: State, names: seq<string>, patches: map<string, Fields>,
      failing: set<string>): seq<Draft> {
    Drafts(st, names, patches)[..WrittenCount(Drafts(st, names, patches), failing)]
  }

  lemma WrittenStep(st: State, names: seq<string>, patches: map<string, Fields>, failing: set<string>)
    requires names != []
    ensures var earlier, last := names[..|names| - 1], names[|names| - 1];
            WrittenDrafts(st, names, patches, failing) == WrittenDrafts(st, earlier, patches, failing)
              + if last in patches && WritesUpTo(names, patches, failing) then [DraftOf(st, last, patches[last])]
                  else []
  {
    var earlier, last := names[..|names| - 1], names[|names| - 1];
    assert names == earlier + [last];
    AllWritten(st, earlier, patches, failing);
    if last in patches {
      CountAppend(Drafts(st, earlier, patches), DraftOf(st, last, patches[last]), failing);
      assert WritesUpTo(names, patches, failing) <==> WritesUpTo(earlier, patches, failing) && last !in failing;
    }
  }

  /** After the writes the name holds its own patched document, or what it held before. */
  ghost predicate PatchedOrKept(st: State, next: State, name: string, patches: map<string, Fields>, written: bool) {
    if written && name in patches then
      var draft := DraftOf(st, name, patches[name]);
      Holds(next, name, draft.merged, draft.filled) && Writes(next, name, draft.merged)
    else Keeps(st, next, name) && Look(st.files, name) == Look(next.files, name)
  }

  ghost function AfterWrites(st: State, names: seq<string>, patches: map<string, Fields>, actor: string,
      failing: set<string>): State {
    CommittedAll(st, WrittenDrafts(st, names, patches, failing), actor)
  }

  lemma CommittedPlus(st: State, done: seq<Draft>, draft: Draft, actor: string)
    ensures CommittedAll(st, done + [draft], actor) == Committed(CommittedAll(st, done, actor), draft, actor)
  {
    var all := done + [draft];
    CommittedStep(st, all, |done|, actor);
    assert all[..|done|] == done && all[..|done| + 1] == all;
  }

  lemma AfterOneMore(st: State, names: seq<string>, patches: map<string, Fields>, actor: string, failing: set<string>)
    requires names != []
    ensures var earlier, last := names[..|names| - 1], names[|names| - 1];
            var mid := AfterWrites(st, earlier, patches, actor, failing);
            AfterWrites(st, names, patches, actor, failing) ==
              if last in patches && WritesUpTo(names, patches, failing) then
                  Committed(mid, DraftOf(st, last, patches[last]), actor) else mid
  {
    var done, last := WrittenDrafts(st, names[..|names| - 1], patches, failing), names[|names| - 1];
    var written := WrittenDrafts(st, names, patches, failing);
    WrittenStep(st, names, patches, failing);
    if last in patches && WritesUpTo(names, patches, failing) {
      var draft := DraftOf(st, last, patches[last]);
      assert written == done + [draft];
      CommittedPlus(st, done, draft, actor);
    } else {
      assert written == done;
    }
  }

  lemma CommitTouches(st: State, draft: Draft, actor: string, name: string)
    ensures var next := Committed(st, draft, actor);
            if name == draft.name then Holds(next, name, draft.merged, draft.filled) && Writes(next, name, draft.merged)
            else Keeps(st, next, name) && Look(st.files, name) == Look(next.files, name)
  {
  }

  /** One more name of the list, `mid` and `next` being the states before and after its turn. */
  lemma OneMoreName(st: State, mid: State, next: State, names: seq<string>, patches: map<string, Fields>, actor: string,
                    failing: set<string>, name: string, i: nat)
    requires names != [] && DistinctNames(names) && i <= |names| && if i < |names| then names[i] == name
        else name !in names
    requires var last := names[|names| - 1];
             next == if last in patches && WritesUpTo(names, patches, failing) then
                 Committed(mid, DraftOf(st, last, patches[last]), actor)
                     else mid
    requires PatchedOrKept(st, mid, name, patches, i < |names| - 1 && WritesUpTo(names[..i + 1], patches, failing))
    ensures PatchedOrKept(st, next, name, patches, i < |names| && WritesUpTo(names[..i + 1], patches, failing))
  {
    var last := names[|names| - 1];
    if last in patches {
      CommitTouches(mid, DraftOf(st, last, patches[last]), actor, name);
    }
    if i == |names| - 1 { assert names[..i + 1] == names; }
  }

  lemma {:induction false} WrittenByName(st: State, names: seq<string>, patches: map<string, Fields>, actor: string,
      failing: set<string>,
                                         name: string, i: nat)
    requires DistinctNames(names) && i <= |names| && if i < |names| then names[i] == name else name !in names
    ensures PatchedOrKept(st, AfterWrites(st, names, patches, actor, failing), name, patches,
                          i < |names| && WritesUpTo(names[..i + 1], patches, failing))
    decreases |names|
  {
    if names != [] {
      var earlier := names[..|names| - 1];
      assert names == earlier + [names[|names| - 1]];
      var mid, next := AfterWrites(st, earlier, patches, actor, failing),
          AfterWrites(st, names, patches, actor, failing);
      var j := if i < |earlier| then i else |earlier|;
      WrittenByName(st, earlier, patches, actor, failing, name, j);
      AfterOneMore(st, names, patches, actor, failing);
      assert j < |earlier| ==> earlier[..j + 1] == names[..i + 1];
      OneMoreName(st, mid, next, names, patches, actor, failing, name, i);
    }
  }

  /**
   * What SaveAll leaves, name by name: accepted, a file holds its patched document when every patched file up to it
   * in the list could be written, and what it held before otherwise; refused, every file holds what it held before.
   */
  lemma SaveAllStopsAtFailure(setup: Setup, st: State, patches: map<string, Fields>, actor: string,
      failing: set<string>, i: nat)
    requires DistinctNames(setup.names) && i < |setup.names|
    ensures PatchedOrKept(st, SavedAll(setup, st, patches, actor, failing), setup.names[i], patches,
                          AllAccepted(setup, st, setup.names, patches)
                              && WritesUpTo(setup.names[..i + 1], patches, failing))
    ensures SaveAllOutcome(setup, st, patches, failing) ==
            if !AllAccepted(setup, st, setup.names, patches) then Refused
            else if WritesUpTo(setup.names, patches, failing) then Done else NotWritten
  {
    WrittenByName(st, setup.names, patches, actor, failing, setup.names[i], i);
    AllWritten(st, setup.names, patches, failing);
  }

  // ----- Restart entries -----

  /** Every restart leaf whose effective value differs from the given state's is pending. */
  ghost predicate ChangesPend(base: State, st: State) {
    st.schemas == base.schemas &&
    forall name, path :: NeedsRestart(base.SchemaOf(name), base.FilledOf(name), st.FilledOf(name), path) ==>
        Extend("", path) in st.pending
  }

  lemma CommitPends(base: State, st: State, draft: Draft, actor: string)
    requires ChangesPend(base, st)
    ensures ChangesPend(base, Committed(st, draft, actor))
  {
    var next := Committed(st, draft, actor);
    forall name, path | NeedsRestart(base.SchemaOf(name), base.FilledOf(name), next.FilledOf(name), path)
      ensures Extend("", path) in next.pending
    {
      if name == draft.name && NeedsRestart(st.SchemaOf(name), st.FilledOf(name), draft.filled, path) {
        DiffMapExact(st.SchemaOf(name), st.FilledOf(name), draft.filled, path);
      } else {
        assert NeedsRestart(base.SchemaOf(name), base.FilledOf(name), st.FilledOf(name), path);
      }
    }
  }

  lemma {:induction false} CommitAllPends(base: State, st: State, drafts: seq<Draft>, actor: string)
    requires ChangesPend(base, st)
    ensures ChangesPend(base, CommittedAll(st, drafts, actor))
    decreases |drafts|
  {
    if drafts != [] {
      CommitAllPends(base, st, drafts[..|drafts| - 1], actor);
      CommitPends(base, CommittedAll(st, drafts[..|drafts| - 1], actor), drafts[|drafts| - 1], actor);
    }
  }

  lemma StepPends(setup: Setup, base: State, st: State, op: Op)
    requires Coherent(setup, st) && FilesHold(setup, st) && ChangesPend(base, st)
    requires !op.Edit? && !op.ClearRestart?
    ensures ChangesPend(base, Step(setup, st, op))
  {
    match op {
      case Save(name, body, actor, written) =>
        CommitPends(base, st, DraftOf(st, name, body), actor);
      case Restore(name, document, actor, written) =>
        CommitPends(base, st, Draft(name, document, Filled(st.SchemaOf(name), document)), actor);
      case SaveAll(patches, actor, failing) =>
        var drafts := Drafts(st, setup.names, patches);
        CommitAllPends(base, st, drafts[..WrittenCount(drafts, failing)], actor);
      case Load =>
        ReloadChangesNothing(setup, st, setup.names);
      case ClearRestart =>
      case Edit(_, _) =>
    }
  }

  /**
   * No restart is forgotten: in a run without outside edits, every restart leaf whose effective value differs from
   * what it was when the list was last cleared is in the pending list.
   */
  lemma {:induction false} PendingIsComplete(setup: Setup, base: State, st: State, ops: seq<Op>)
    requires Coherent(setup, st) && FilesHold(setup, st) && ChangesPend(base, st)
    requires NoEdits(ops) && forall i :: 0 <= i < |ops| ==> !ops[i].ClearRestart?
    ensures ChangesPend(base, Run(setup, st, ops))
    decreases |ops|
  {
    if ops != [] {
      StepPends(setup, base, st, ops[0]);
      StepCoherent(setup, st, ops[0]);
      PendingIsComplete(setup, base, Step(setup, st, ops[0]), ops[1..]);
    }
  }

  /** So after any clear of any run from a successful load, what has changed since is pending. */
  lemma NoRestartForgotten(setup: Setup, files: map<string, File>, before: seq<Op>, after: seq<Op>)
    requires Boots(setup, files) && NoEdits(before) && NoEdits(after)
    requires forall i :: 0 <= i < |after| ==> !after[i].ClearRestart?
    ensures var cleared := Step(setup, Run(setup, Booted(setup, files), before), ClearRestart);
            ChangesPend(cleared, Run(setup, cleared, after))
  {
    var cleared := Step(setup, Run(setup, Booted(setup, files), before), ClearRestart);
    EveryRunIsCoherent(setup, files, before);
    StepCoherent(setup, Run(setup, Booted(setup, files), before), ClearRestart);
    PendingIsComplete(setup, cleared, cleared, after);
  }

  /** The pointer is that of a restart leaf whose value differs between the two documents. */
  ghost predicate ChangedIn(schema: Schema, before: Fields, after: Fields, pointer: string) {
    exists path :: NeedsRestart(schema, before, after, path) && Extend("", path) == pointer
  }

  /** The same between two states, in some file. */
  ghost predicate Changed(st: State, next: State, pointer: string) {
    exists name :: ChangedIn(st.SchemaOf(name), st.FilledOf(name), next.FilledOf(name), pointer)
  }

  lemma DiffIsChange(schema: Schema, before: Fields, after: Fields, pointer: string)
    ensures pointer in DiffMap(schema, before, after) <==> ChangedIn(schema, before, after, pointer)
  {
    if pointer in DiffMap(schema, before, after) {
      var path :| path in DiffPaths(schema, before, after) && Extend("", path) == pointer;
      DiffPathsExact(schema, before, after, path);
    }
    if path :| NeedsRestart(schema, before, after, path) && Extend("", path) == pointer {
      DiffMapExact(schema, before, after, path);
    }
  }

  lemma CommitAdds(st: State, draft: Draft, actor: string, pointer: string)
    ensures pointer in Committed(st, draft, actor).pending <==>
        pointer in st.pending || Changed(st, Committed(st, draft, actor), pointer)
  {
    var next := Committed(st, draft, actor);
    DiffIsChange(st.SchemaOf(draft.name), st.FilledOf(draft.name), draft.filled, pointer);
    assert next.FilledOf(draft.name) == draft.filled;
    forall name | name != draft.name ensures next.FilledOf(name) == st.FilledOf(name) {
    }
  }

  /** Drafts of one name are one draft, so a later commit of it adds nothing. */
  lemma {:induction false} CommitAllAdds(st: State, drafts: seq<Draft>, actor: string, pointer: string)
    requires forall i, j :: 0 <= i < j < |drafts| && drafts[i].name == drafts[j].name ==> drafts[i] == drafts[j]
    ensures pointer in CommittedAll(st, drafts, actor).pending
            <==> pointer in st.pending || Changed(st, CommittedAll(st, drafts, actor), pointer)
    decreases |drafts|
  {
    if drafts != [] {
      var mid := CommittedAll(st, drafts[..|drafts| - 1], actor);
      CommitAllAdds(st, drafts[..|drafts| - 1], actor, pointer);
      CommitAdds(mid, drafts[|drafts| - 1], actor, pointer);
      OneMoreCommit(st, drafts, actor);
      ChangesCompose(st, mid, CommittedAll(st, drafts, actor), drafts[|drafts| - 1].name, pointer);
    }
  }

  lemma OneMoreCommit(st: State, drafts: seq<Draft>, actor: string)
    requires drafts != []
    requires forall i, j :: 0 <= i < j < |drafts| && drafts[i].name == drafts[j].name ==> drafts[i] == drafts[j]
    ensures var name, mid, next :=
        drafts[|drafts| - 1].name, CommittedAll(st, drafts[..|drafts| - 1], actor), CommittedAll(st, drafts, actor);
            && mid.schemas == st.schemas
            && (forall other :: other != name ==> next.FilledOf(other) == mid.FilledOf(other))
            && (mid.FilledOf(name) == st.FilledOf(name) || mid.FilledOf(name) == next.FilledOf(name))
  {
    var last := drafts[|drafts| - 1];
    var mid := CommittedAll(st, drafts[..|drafts| - 1], actor);
    CommitFills(mid, last, actor);
    var i := CommittedAllAt(st, drafts[..|drafts| - 1], actor, last.name);
    if i != -1 {
      assert drafts[i].name == last.name && drafts[i] == last;
      assert mid.FilledOf(last.name) == last.filled;
    }
  }

  lemma CommitFills(st: State, draft: Draft, actor: string)
    ensures forall name :: Committed(st, draft, actor).FilledOf(name) == if name == draft.name then draft.filled
        else st.FilledOf(name)
  {
  }

  /** Changes of two states that differ in one name, which was untouched before or is left as it was. */
  lemma ChangesCompose(st: State, mid: State, next: State, name: string, pointer: string)
    requires st.schemas == mid.schemas && forall other :: other != name ==> next.FilledOf(other) == mid.FilledOf(other)
    requires mid.FilledOf(name) == st.FilledOf(name) || mid.FilledOf(name) == next.FilledOf(name)
    ensures Changed(st, next, pointer) <==> Changed(st, mid, pointer) || Changed(mid, next, pointer)
  {
    forall other
      ensures ChangedIn(st.SchemaOf(other), st.FilledOf(other), next.FilledOf(other), pointer)
              <==> ChangedIn(st.SchemaOf(other), st.FilledOf(other), mid.FilledOf(other), pointer)
                   || ChangedIn(mid.SchemaOf(other), mid.FilledOf(other), next.FilledOf(other), pointer)
    {
      assert mid.SchemaOf(other) == st.SchemaOf(other);
    }
  }

  predicate IsWrite(op: Op) {
    op.Save? || op.SaveAll? || op.Restore?
  }

  lemma StepAdds(setup: Setup, st: State, op: Op, pointer: string)
    requires IsWrite(op)
    ensures pointer in Step(setup, st, op).pending <==>
        pointer in st.pending || Changed(st, Step(setup, st, op), pointer)
  {
    match op {
      case Save(name, body, actor, written) =>
        CommitAdds(st, DraftOf(st, name, body), actor, pointer);
      case Restore(name, document, actor, written) =>
        CommitAdds(st, Draft(name, document, Filled(st.SchemaOf(name), document)), actor, pointer);
      case SaveAll(patches, actor, failing) =>
        if AllAccepted(setup, st, setup.names, patches) {
          var drafts := Drafts(st, setup.names, patches);
          forall i | 0 <= i < |drafts|
              ensures drafts[i].name in patches && drafts[i] == DraftOf(st, drafts[i].name, patches[drafts[i].name]) {
            DraftsMember(setup, st, setup.names, patches, i);
          }
          CommitAllAdds(st, drafts[..WrittenCount(drafts, failing)], actor, pointer);
        }
    }
  }

  predicate NoClear(ops: seq<Op>) {
    forall i :: 0 <= i < |ops| ==> !ops[i].ClearRestart?
  }

  /**
   * Some write of the run, with no clear after it, changed the effective value of the restart leaf the pointer points
   * at.
   */
  ghost predicate WrittenSinceClear(setup: Setup, st: State, ops: seq<Op>, pointer: string)
    decreases |ops|
  {
    ops != []
    && ((IsWrite(ops[0]) && Changed(st, Step(setup, st, ops[0]), pointer) && NoClear(ops[1..]))
        || WrittenSinceClear(setup, Step(setup, st, ops[0]), ops[1..], pointer))
  }

  /**
   * The pending list is exactly what the writes changed since the last clear: in every run, with edits, loads and
   * clears anywhere, a pointer is pending at the end if and only if it was at the start and nothing was cleared, or
   * some write, with no clear after it, changed the effective value of the restart leaf it points at.
   */
  lemma {:induction false} PendingIsUnion(setup: Setup, st: State, ops: seq<Op>, pointer: string)
    ensures pointer in Run(setup, st, ops).pending
            <==> (pointer in st.pending && NoClear(ops)) || WrittenSinceClear(setup, st, ops, pointer)
    decreases |ops|
  {
    if ops != [] {
      var op, next, rest := ops[0], Step(setup, st, ops[0]), ops[1..];
      if IsWrite(op) {
        StepAdds(setup, st, op, pointer);
      } else if op.Load? {
        var _ := LoadedAt(setup, st, setup.names, "");
      }
      PendingIsUnion(setup, next, rest, pointer);
      assert NoClear(ops) <==> !op.ClearRestart? && NoClear(rest);
    }
  }

  // ----- Every pending restart has a reason -----

  ghost predicate Reasoned(st: State) {
    forall pointer :: pointer in st.pending ==> st.pending[pointer].reason != ""
  }

  lemma CommitReasons(st: State, draft: Draft, actor: string)
    requires Reasoned(st) && ReasonsGiven(st.SchemaOf(draft.name))
    ensures Reasoned(Committed(st, draft, actor))
  {
    var schema, before := st.SchemaOf(draft.name), st.FilledOf(draft.name);
    forall pointer | pointer in DiffMap(schema, before, draft.filled)
      ensures DiffMap(schema, before, draft.filled)[pointer].reason != ""
    {
      var path :| path in DiffPaths(schema, before, draft.filled) && Extend("", path) == pointer;
      DiffMapExact(schema, before, draft.filled, path);
    }
  }

  lemma {:induction false} CommitAllReasons(st: State, drafts: seq<Draft>, actor: string)
    requires Reasoned(st) && forall d :: d in drafts ==> ReasonsGiven(st.SchemaOf(d.name))
    ensures Reasoned(CommittedAll(st, drafts, actor)) && CommittedAll(st, drafts, actor).schemas == st.schemas
    decreases |drafts|
  {
    if drafts != [] {
      CommitAllReasons(st, drafts[..|drafts| - 1], actor);
      CommitReasons(CommittedAll(st, drafts[..|drafts| - 1], actor), drafts[|drafts| - 1], actor);
    }
  }

  lemma {:induction false} DraftNames(st: State, names: seq<string>, patches: map<string, Fields>)
    ensures forall d :: d in Drafts(st, names, patches) ==> d.name in names
    decreases |names|
  {
    if names != [] {
      DraftNames(st, names[..|names| - 1], patches);
    }
  }

  lemma StepReasons(setup: Setup, st: State, op: Op)
    requires Coherent(setup, st) && Reasoned(st)
    ensures Reasoned(Step(setup, st, op))
  {
    match op {
      case Save(name, body, actor, written) =>
        if name in setup.names { CommitReasons(st, DraftOf(st, name, body), actor); }
      case Restore(name, document, actor, written) =>
        if name in setup.names { CommitReasons(st, Draft(name, document, Filled(st.SchemaOf(name), document)), actor); }
      case SaveAll(patches, actor, failing) =>
        var drafts := Drafts(st, setup.names, patches);
        DraftNames(st, setup.names, patches);
        CommitAllReasons(st, drafts[..WrittenCount(drafts, failing)], actor);
      case Load =>
        var _ := LoadedAt(setup, st, setup.names, "");
      case _ =>
    }
  }

  /**
   * What the lint of a load is for: over every run from a successful load, every pending restart entry has a reason.
   */
  lemma {:induction false} EveryPendingHasReason(setup: Setup, st: State, ops: seq<Op>)
    requires Coherent(setup, st) && Reasoned(st)
    ensures Reasoned(Run(setup, st, ops))
    decreases |ops|
  {
    if ops != [] {
      StepReasons(setup, st, ops[0]);
      StepCoherent(setup, st, ops[0]);
      EveryPendingHasReason(setup, Step(setup, st, ops[0]), ops[1..]);
    }
  }

  // ----- Incremental validation over every run -----

  /** The kind's effective document has safe ids and unique entries. */
  ghost predicate StorageSafe(pf: Platform, kind: Kind, st: State) {
    SafeIds(st.FilledOf(kind.file), kind) && Unique(pf, st.FilledOf(kind.file), kind)
  }

  /** The evaluation of the schema refuses an entry of the kind without a path. */
  ghost predicate RequiresPaths(setup: Setup, kind: Kind)
    requires kind.file in setup.schemas
  {
    forall document :: setup.valid(setup.schemas[kind.file], document) == [] ==> PathsGiven(document, kind)
  }

  ghost predicate ChecksKind(pf: Platform, setup: Setup, kind: Kind) {
    && Covers(pf, setup.writable, kind) && SafeKind(kind) && !pf.isAbs("")
    && kind.file in setup.names && kind.file in setup.schemas && HasKind(setup.schemas[kind.file], kind)
    && RequiresPaths(setup, kind)
  }

  /** A document whose every leaf was checked, as load and restore do. */
  lemma WholeCheck(pf: Platform, setup: Setup, kind: Kind, document: Fields)
    requires ChecksKind(pf, setup, kind)
    requires var filled := Filled(setup.schemas[kind.file], document);
             setup.valid(setup.schemas[kind.file], filled) == [] && Passes(setup.writable, kind.file, filled, filled)
    ensures var filled := Filled(setup.schemas[kind.file], document); SafeIds(filled, kind) && Unique(pf, filled, kind)
  {
    WholeCheckGivesUnique(pf, setup.writable, kind, Filled(setup.schemas[kind.file], document));
  }

  lemma ExplainedKeepsStorage(pf: Platform, setup: Setup, kind: Kind, st: State, op: Op, next: State, change: Change)
    requires ChecksKind(pf, setup, kind) && NameCoherent(setup, st, kind.file) && StorageSafe(pf, kind, st)
    requires Explains(setup, st, op, next, kind.file, change)
    ensures StorageSafe(pf, kind, next)
  {
    match change {
      case Same =>
        assert next.FilledOf(kind.file) == st.FilledOf(kind.file);
      case FromSave(body) =>
        IncrementalCheckKeepsUnique(pf, setup.writable, kind, setup.schemas[kind.file], st.raw[kind.file], body);
        assert next.FilledOf(kind.file) == DraftOf(st, kind.file, body).filled;
      case FromRestore(document) =>
        WholeCheck(pf, setup, kind, document);
        assert next.FilledOf(kind.file) == Filled(setup.schemas[kind.file], document);
      case FromLoad =>
        WholeCheck(pf, setup, kind, ReadRaw(st.files, kind.file).value);
        assert next.FilledOf(kind.file) == Filled(setup.schemas[kind.file], ReadRaw(st.files, kind.file).value);
    }
  }

  lemma StepKeepsStorage(pf: Platform, setup: Setup, kind: Kind, st: State, op: Op)
    requires ChecksKind(pf, setup, kind) && Coherent(setup, st) && StorageSafe(pf, kind, st)
    ensures StorageSafe(pf, kind, Step(setup, st, op))
  {
    var change := StepExplained(setup, st, op, kind.file);
    ExplainedKeepsStorage(pf, setup, kind, st, op, Step(setup, st, op), change);
  }

  lemma {:induction false} RunKeepsStorage(pf: Platform, setup: Setup, kind: Kind, st: State, ops: seq<Op>)
    requires ChecksKind(pf, setup, kind) && Coherent(setup, st) && StorageSafe(pf, kind, st)
    ensures StorageSafe(pf, kind, Run(setup, st, ops))
    decreases |ops|
  {
    if ops != [] {
      StepCoherent(setup, st, ops[0]);
      StepKeepsStorage(pf, setup, kind, st, ops[0]);
      RunKeepsStorage(pf, setup, kind, Step(setup, st, ops[0]), ops[1..]);
    }
  }

  /**
   * Incremental validation is enough for the storage paths: over every run from a successful load, outside edits
   * included, no two entries of a storage-path map are both the default and no two name the same folder, although a
   * save runs the rules on the leaves of its patch only. No id holds a '/' or a '~' either, though nothing evaluates
   * the schemas' "propertyNames": the rule looks an entry up under its escaped id, and the schema asks every entry
   * for a path.
   */
  lemma StorageUniqueOnEveryRun(pf: Platform, setup: Setup, kind: Kind, files: map<string, File>, ops: seq<Op>)
    requires IsCodeRules(pf, setup.writable) && KnownKind(kind) && !pf.isAbs("")
    requires kind.file in setup.names && kind.file in setup.schemas && HasKind(setup.schemas[kind.file], kind)
    requires RequiresPaths(setup, kind) && Boots(setup, files)
    ensures var document := Run(setup, Booted(setup, files), ops).FilledOf(kind.file);
            Unique(pf, document, kind) && SafeIds(document, kind)
  {
    CodeRulesCover(pf, setup.writable, kind);
    KindsAreSafe(kind);
    BootCoherent(setup, files);
    BootStorageSafe(pf, setup, kind, files);
    RunKeepsStorage(pf, setup, kind, Booted(setup, files), ops);
  }

  lemma BootStorageSafe(pf: Platform, setup: Setup, kind: Kind, files: map<string, File>)
    requires ChecksKind(pf, setup, kind) && Boots(setup, files)
    ensures StorageSafe(pf, kind, Booted(setup, files))
  {
    var loaded := LoadedAt(setup, State(map[], map[], map[], map[], None, files), setup.names, kind.file);
    WholeCheck(pf, setup, kind, ReadRaw(files, kind.file).value);
  }
}
