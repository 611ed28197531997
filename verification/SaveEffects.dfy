/**
 * What the operations of the configuration engine leave, told by reading the state after them: the cached documents,
 * the stored file, the pending list and who changed it last.
 */
module SaveEffects {
  import opened Engine
  import opened EngineRuns
  import opened GoStrings
  import opened Hooks
  import opened Json
  import opened Leaves
  import opened MergePatch
  import opened Pointer
  import opened Restart
  import opened Schema
  import opened SchemaWalks
  import ReadOnly

  /**
   * The pending list gains one entry for every restart leaf whose effective value differs, each under
   * its pointer, and loses none.
   */
  ghost predicate PendingGrows(st: State, next: State, name: string) {
    && (forall pointer :: pointer in next.pending <==>
          pointer in st.pending || ChangedIn(st.SchemaOf(name), st.FilledOf(name), next.FilledOf(name), pointer))
    && (forall pointer ::
          pointer in st.pending && !ChangedIn(st.SchemaOf(name), st.FilledOf(name), next.FilledOf(name), pointer) ==>
          next.pending[pointer] == st.pending[pointer])
    && (forall path :: NeedsRestart(st.SchemaOf(name), st.FilledOf(name), next.FilledOf(name), path) ==>
          Extend("", path) in next.pending && next.pending[Extend("", path)] == EntryAt(st.SchemaOf(name), "", path))
  }

  lemma CommitGrows(st: State, draft: Draft, actor: string)
    ensures PendingGrows(st, Committed(st, draft, actor), draft.name)
  {
    var next := Committed(st, draft, actor);
    assert next.FilledOf(draft.name) == draft.filled;
    forall pointer ensures pointer in DiffMap(st.SchemaOf(draft.name), st.FilledOf(draft.name), draft.filled) <==>
        ChangedIn(st.SchemaOf(draft.name), st.FilledOf(draft.name), next.FilledOf(draft.name), pointer)
    {
      DiffIsChange(st.SchemaOf(draft.name), st.FilledOf(draft.name), draft.filled, pointer);
    }
    forall path | NeedsRestart(st.SchemaOf(draft.name), st.FilledOf(draft.name), next.FilledOf(draft.name), path)
      ensures Extend("", path) in next.pending
          && next.pending[Extend("", path)] == EntryAt(st.SchemaOf(draft.name), "", path)
    {
      DiffMapExact(st.SchemaOf(draft.name), st.FilledOf(draft.name), draft.filled, path);
    }
  }

  /** The hook answers nothing for every leaf of the scope that is not null, read in the document. */
  ghost predicate HookPasses(hook: Hook, name: string, document: Fields, scope: Fields) {
    forall path :: Plain(ValueAt(Obj(scope), path)) ==>
      hook(Extend("", path), ValueAt(Obj(document), path), name, document) == []
  }

  lemma HookPassesExactly(hook: Hook, name: string, document: Fields, scope: Fields)
    ensures HookPasses(hook, name, document, scope) <==> Passes(hook, name, document, scope)
  {
    forall path ensures Plain(ValueAt(Obj(scope), path)) <==>
        LeafAt(Obj(scope), path).Some? && !LeafAt(Obj(scope), path).value.Null?
    {
      LeafIsValue(Obj(scope), path);
    }
  }

  /** A patch is good: it sends nothing readOnly, and the effective document it leads to passes, its own leaves too. */
  ghost predicate GoodPatch(setup: Setup, st: State, name: string, body: Fields) {
    var effective := Filled(st.SchemaOf(name), MergedFields(st.RawOf(name), body));
    && (forall path :: ReadOnly.Sent(Obj(body), path) ==> !ReadOnly.ReadOnlyAt(st.SchemaOf(name), path))
    && setup.valid(st.SchemaOf(name), effective) == []
    && HookPasses(setup.writable, name, effective, body) && HookPasses(setup.reachable, name, effective, body)
  }

  /** A document is good: filled it is valid, and every leaf of it passes both hooks. */
  ghost predicate GoodDocument(setup: Setup, st: State, name: string, document: Fields) {
    var effective := Filled(st.SchemaOf(name), document);
    && setup.valid(st.SchemaOf(name), effective) == []
    && HookPasses(setup.writable, name, effective, effective)
    && HookPasses(setup.reachable, name, effective, effective)
  }

  /** The four answers of an operation that is refused for an unknown name, for its content, or by the disk. */
  ghost predicate Answers(outcome: Outcome, known: bool, good: bool, written: bool) {
    && (outcome.UnknownName? <==> !known)
    && (outcome.Refused? <==> known && !good)
    && (outcome.NotWritten? <==> known && good && !written)
    && (outcome.Done? <==> known && good && written)
  }

  lemma GoodPatchExactly(setup: Setup, st: State, name: string, body: Fields)
    ensures Accepted(setup, st, name, body) <==> GoodPatch(setup, st, name, body)
  {
    var effective := Filled(st.SchemaOf(name), MergedFields(st.RawOf(name), body));
    HookPassesExactly(setup.writable, name, effective, body);
    HookPassesExactly(setup.reachable, name, effective, body);
  }

  /** The answer of a save. */
  lemma SaveAnswers(setup: Setup, st: State, name: string, body: Fields, written: bool)
    ensures Answers(SaveOutcome(setup, st, name, body, written), name in setup.names, GoodPatch(setup, st, name, body),
                written)
  {
    GoodPatchExactly(setup, st, name, body);
  }

  /**
   * What a good save leaves at every path of the stored document: every plain value it sends, the stored value wherever
   * it does not send, nothing where it sends null. The file reads back as that document, the effective document is that
   * one filled, the restart leaves whose effective values differ are pending, and nothing else moves.
   */
  lemma SaveStores(setup: Setup, st: State, name: string, body: Fields, actor: string, path: seq<string>)
    requires name in setup.names && GoodPatch(setup, st, name, body)
    ensures SaveOutcome(setup, st, name, body, true).Done?
    ensures var next := Saved(setup, st, name, body, actor, true);
            && Replaces(st, next, name, actor)
            && ReadOnly.ReadsMergedAt(Obj(st.RawOf(name)), Obj(body), Obj(next.RawOf(name)), path)
            && PendingGrows(st, next, name)
  {
    GoodPatchExactly(setup, st, name, body);
    CommitReplaces(st, DraftOf(st, name, body), actor);
    CommitGrows(st, DraftOf(st, name, body), actor);
    ReadOnly.MergedReadsExactly(Obj(st.RawOf(name)), Obj(body), path);
  }

  /** In particular a save that sends a value stores it, and keeps every value it leaves out. */
  lemma SaveKeepsTheRest(setup: Setup, st: State, name: string, body: Fields, actor: string, path: seq<string>)
    requires name in setup.names && GoodPatch(setup, st, name, body)
    ensures var stored := Obj(Saved(setup, st, name, body, actor, true).RawOf(name));
            && (Plain(ValueAt(Obj(body), path)) ==> ValueAt(stored, path) == ValueAt(Obj(body), path))
            && (ReadOnly.ObjectsAlong(Obj(body), path) ==> ValueAt(stored, path) == ValueAt(Obj(st.RawOf(name)), path))
  {
    SaveStores(setup, st, name, body, actor, path);
    if ReadOnly.ObjectsAlong(Obj(body), path) { ReadOnly.UnsentReadsNull(Obj(body), path); }
  }

  /**
   * After a good save a restart leaf, reached by a walk down the schema, is pending under its pointer, with its title
   * and reason, when its effective value is another; when it is not, it is pending only if it was.
   */
  lemma SavePends(setup: Setup, st: State, name: string, body: Fields, actor: string, nodes: seq<Schema>,
      entry: seq<bool>, path: seq<string>)
    requires name in setup.names && GoodPatch(setup, st, name, body)
    requires IsWalk(Start, nodes, entry, path) && EndsAtRestart(Start, nodes, entry, path)
    requires nodes[0] == st.SchemaOf(name)
    ensures var next, leaf := Saved(setup, st, name, body, actor, true), nodes[|path|];
            if ValueAt(Obj(st.FilledOf(name)), path) != ValueAt(Obj(next.FilledOf(name)), path) then
              && Extend("", path) in next.pending && next.pending[Extend("", path)].reason == leaf.reason
              && next.pending[Extend("", path)].title == if leaf.title != "" then leaf.title else path[|path| - 1]
            else Extend("", path) in next.pending <==> Extend("", path) in st.pending
  {
    SaveStores(setup, st, name, body, actor, path);
    WalkIsFlagged(Start, nodes, entry, path);
    EntryReads(st.SchemaOf(name), "", path);
    FlaggedIsProperty(st.SchemaOf(name), path);
    var next := Saved(setup, st, name, body, actor, true);
    if ValueAt(Obj(st.FilledOf(name)), path) != ValueAt(Obj(next.FilledOf(name)), path) {
      assert NeedsRestart(st.SchemaOf(name), st.FilledOf(name), next.FilledOf(name), path);
    } else if ChangedIn(st.SchemaOf(name), st.FilledOf(name), next.FilledOf(name), Extend("", path)) {
      var other :| NeedsRestart(st.SchemaOf(name), st.FilledOf(name), next.FilledOf(name), other)
          && Extend("", other) == Extend("", path);
      ExtendInjective("", other, path);
    }
  }

  /** The answer of a restore: the whole document is checked, every leaf of it as it is filled. */
  lemma RestoreAnswers(setup: Setup, st: State, name: string, document: Fields, written: bool)
    ensures Answers(RestoreOutcome(setup, st, name, document, written), name in setup.names,
                GoodDocument(setup, st, name, document), written)
  {
    var effective := Filled(st.SchemaOf(name), document);
    HookPassesExactly(setup.writable, name, effective, effective);
    HookPassesExactly(setup.reachable, name, effective, effective);
  }

  /** A good restore leaves the document itself, its file, and it filled; the rest as a save does. */
  lemma RestoreStores(setup: Setup, st: State, name: string, document: Fields, actor: string)
    requires name in setup.names && GoodDocument(setup, st, name, document)
    ensures RestoreOutcome(setup, st, name, document, true).Done?
    ensures var next := Restored(setup, st, name, document, actor, true);
            && Replaces(st, next, name, actor) && next.RawOf(name) == document && PendingGrows(st, next, name)
  {
    RestoreAnswers(setup, st, name, document, true);
    CommitReplaces(st, Draft(name, document, Filled(st.SchemaOf(name), document)), actor);
    CommitGrows(st, Draft(name, document, Filled(st.SchemaOf(name), document)), actor);
  }

  /** A save or a restore of an unknown name, of bad content, or that cannot be written leaves the state as it was. */
  lemma OtherwiseUnchanged(setup: Setup, st: State, name: string, body: Fields, actor: string, written: bool)
    ensures !(name in setup.names && GoodPatch(setup, st, name, body) && written) ==>
              Saved(setup, st, name, body, actor, written) == st
    ensures !(name in setup.names && GoodDocument(setup, st, name, body) && written) ==>
              Restored(setup, st, name, body, actor, written) == st
  {
    SaveAnswers(setup, st, name, body, written);
    RestoreAnswers(setup, st, name, body, written);
  }

  /** What the file of a name holds: an object, or nothing at all, which is the empty document. */
  predicate FileHolds(st: State, name: string, document: Fields) {
    name in st.files
    && (st.files[name] == Parsed(Obj(document)) || (st.files[name] == Parsed(Null) && document == map[]))
  }

  /** The checks of a load on one document: the restart leaves have reasons, and no reachability is asked. */
  ghost predicate PassesLoad(setup: Setup, name: string, document: Fields) {
    name in setup.schemas && ReasonsGiven(setup.schemas[name]) &&
    var effective := Filled(setup.schemas[name], document);
    setup.valid(setup.schemas[name], effective) == [] && HookPasses(setup.writable, name, effective, effective)
  }

  lemma LoadsExactly(setup: Setup, files: map<string, File>, name: string)
    requires ReadRaw(files, name).Some?
    ensures Loads(setup, files, name) <==> PassesLoad(setup, name, ReadRaw(files, name).value)
  {
    if name in setup.schemas {
      var effective := Filled(setup.schemas[name], ReadRaw(files, name).value);
      HookPassesExactly(setup.writable, name, effective, effective);
    }
  }

  lemma {:induction false} LoadSignsNothing(setup: Setup, st: State, names: seq<string>)
    ensures Loaded(setup, st, names).lastModifiedBy == st.lastModifiedBy
    decreases |names|
  {
    if names != [] {
      LoadSignsNothing(setup, st, names[..|names| - 1]);
    }
  }

  /**
   * What a load leaves of each name: the document its file holds, the empty one for an empty file, when that passes;
   * otherwise, a missing or unreadable file included, what was cached before. The files and the pending list stay.
   */
  lemma LoadTakes(setup: Setup, st: State, name: string, document: Fields)
    requires name in setup.names
    ensures var next := Loaded(setup, st, setup.names);
            && next.files == st.files && next.pending == st.pending && next.lastModifiedBy == st.lastModifiedBy
            && (FileHolds(st, name, document) && PassesLoad(setup, name, document) ==>
                  Holds(next, name, document, Filled(setup.schemas[name], document)))
            && (FileHolds(st, name, document) && !PassesLoad(setup, name, document) ==> Keeps(st, next, name))
            && ((forall other :: !FileHolds(st, name, other)) ==> Keeps(st, next, name))
  {
    LoadSignsNothing(setup, st, setup.names);
    var loaded := LoadedAt(setup, st, setup.names, name);
    if ReadRaw(st.files, name).Some? {
      assert FileHolds(st, name, ReadRaw(st.files, name).value);
      LoadsExactly(setup, st.files, name);
    }
  }

  /** Some patched file is written before the first failure. */
  predicate AnyWritten(names: seq<string>, patches: map<string, Fields>, failing: set<string>) {
    exists i :: 0 <= i < |names| && names[i] in patches && WritesUpTo(names[..i + 1], patches, failing)
  }

  lemma {:induction false} SignedWhenWritten(st: State, names: seq<string>, patches: map<string, Fields>,
      actor: string, failing: set<string>)
    ensures AfterWrites(st, names, patches, actor, failing).lastModifiedBy
            == if AnyWritten(names, patches, failing) then Some(actor) else st.lastModifiedBy
    decreases |names|
  {
    if names != [] {
      var earlier := names[..|names| - 1];
      SignedWhenWritten(st, earlier, patches, actor, failing);
      AfterOneMore(st, names, patches, actor, failing);
      assert names[..|names|] == names;
      forall i | 0 <= i < |earlier| && names[i] in patches
        ensures WritesUpTo(names[..i + 1], patches, failing) == WritesUpTo(earlier[..i + 1], patches, failing)
      {
        assert names[..i + 1] == earlier[..i + 1];
      }
    }
  }

  /** SaveAll changes who modified last exactly when it is accepted and writes a file. */
  lemma SaveAllSigns(setup: Setup, st: State, patches: map<string, Fields>, actor: string, failing: set<string>)
    ensures SavedAll(setup, st, patches, actor, failing).lastModifiedBy ==
            if AllAccepted(setup, st, setup.names, patches) && AnyWritten(setup.names, patches, failing) then
                Some(actor)
            else st.lastModifiedBy
  {
    SignedWhenWritten(st, setup.names, patches, actor, failing);
  }

  /** SaveAll is accepted exactly when each of its patches is good on its own, against the one state before it. */
  lemma {:induction false} AllAcceptedExactly(setup: Setup, st: State, names: seq<string>, patches: map<string, Fields>)
    ensures AllAccepted(setup, st, names, patches) <==>
        forall i :: 0 <= i < |names| && names[i] in patches ==> GoodPatch(setup, st, names[i], patches[names[i]])
    decreases |names|
  {
    if names != [] {
      var earlier, last := names[..|names| - 1], names[|names| - 1];
      AllAcceptedExactly(setup, st, earlier, patches);
      assert names == earlier + [last];
      if last in patches { GoodPatchExactly(setup, st, last, patches[last]); }
    }
  }

  // ----- The effective document -----

  /** The setting at a path: the property reached through sections, which is no section itself. */
  function SettingAt(schema: Schema, path: seq<string>): Option<Schema>
    decreases |path|
  {
    if path == [] || path[0] !in schema.Children() then None
    else
      var child := schema.Children()[path[0]];
      if !child.Nested() then if |path| == 1 then Some(child) else None else SettingAt(child, path[1..])
  }

  lemma {:induction false} PresetIsDefault(schema: Schema, path: seq<string>)
    requires SettingAt(schema, path).Some? && SettingAt(schema, path).value.preset.Some?
    ensures HasDefaults(schema)
    decreases |path|
  {
    var child := schema.Children()[path[0]];
    if child.Nested() {
      PresetIsDefault(child, path[1..]);
    }
  }

  /** Every setting reads as the document has it, and as its default when the document does not have it. */
  lemma {:induction false} EffectiveReads(schema: Schema, config: Fields, path: seq<string>)
    requires SettingAt(schema, path).Some?
    ensures ValueAt(Obj(Filled(schema, config)), path) ==
            if ReadOnly.Sent(Obj(config), path) then ValueAt(Obj(config), path)
            else match SettingAt(schema, path).value.preset
              case Some(value) => value
              case None => Null
    decreases |path|
  {
    var key, child := path[0], schema.Children()[path[0]];
    FilledLook(schema, config, key);
    NullBelow(path[1..]);
    if child.Nested() {
      var inner := FieldsOf(Get(config, key));
      EffectiveReads(child, inner, path[1..]);
      if SettingAt(child, path[1..]).value.preset.Some? { PresetIsDefault(child, path[1..]); }
      NotSentBelow(Get(config, key), path[1..]);
    }
  }

  lemma NotSentBelow(value: Json, path: seq<string>)
    requires path != []
    ensures ReadOnly.Sent(Obj(FieldsOf(value)), path) == ReadOnly.Sent(value, path)
    ensures ReadOnly.Sent(value, path) ==> ValueAt(Obj(FieldsOf(value)), path) == ValueAt(value, path)
  {
  }
}
