/**
 * The configuration engine (internal/configengine/engine.go and save.go): its state, and the steps of Load, Save,
 * SaveAll and Restore.
 */
module Engine {
  import opened GoStrings
  import opened Hooks
  import opened Json
  import opened MergePatch
  import opened Pointer
  import Leaves
  import ReadOnly
  import opened Restart
  import opened Schema

  /** A configuration file on disk: what parsing it gives, if anything. */
  datatype File = Unparsable | Parsed(value: Json)

  /**
   * What an engine is built over: the fixed names, the readable schemas, the schema evaluation and the backend's
   * rules.
   */
  datatype Setup = Setup(
    names: seq<string>,
    schemas: map<string, Schema>,
    valid: (Schema, Fields) -> seq<Problem>,
    writable: Hook,
    reachable: Hook)

  datatype State = State(
    schemas: map<string, Schema>,
    raw: map<string, Fields>,
    filled: map<string, Fields>,
    pending: map<string, RestartEntry>,
    lastModifiedBy: Option<string>,
    files: map<string, File>)
  {
    /** The schema of a name, the nil schema before it was read. */
    function SchemaOf(name: string): Schema { if name in schemas then schemas[name] else EMPTY }

    function RawOf(name: string): Fields { if name in raw then raw[name] else map[] }

    function FilledOf(name: string): Fields { if name in filled then filled[name] else map[] }
  }

  datatype Outcome = Done | UnknownName | Refused | NotWritten

  /** readRaw: a file that is missing, unparsable or no object is an error; an empty one is the empty document. */
  function ReadRaw(files: map<string, File>, name: string): Option<Fields> {
    if name in files && files[name].Parsed? then
      match files[name].value
      case Null => Some(map[])
      case Obj(fields) => Some(fields)
      case _ => None
    else None
  }

  // ----- The steps on values -----

  datatype Draft = Draft(name: string, merged: Fields, filled: Fields)

  function DraftOf(st: State, name: string, body: Fields): Draft {
    var merged := MergedFields(st.RawOf(name), body);
    Draft(name, merged, Filled(st.SchemaOf(name), merged))
  }

  ghost predicate SendsNoReadOnly(schema: Schema, body: Fields) {
    forall path :: !(ReadOnly.ReadOnlyAt(schema, path) && ReadOnly.Sent(Obj(body), path))
  }

  /** The filled document passes the schema, and the leaves of the scope pass both hooks. */
  ghost predicate Accepts(setup: Setup, schema: Schema, name: string, filled: Fields, scope: Fields) {
    setup.valid(schema, filled) == [] && Passes(setup.writable, name, filled, scope)
        && Passes(setup.reachable, name, filled, scope)
  }

  /** prepare found no error. */
  ghost predicate Accepted(setup: Setup, st: State, name: string, body: Fields) {
    SendsNoReadOnly(st.SchemaOf(name), body) && Accepts(setup, st.SchemaOf(name), name,
        DraftOf(st, name, body).filled, body)
  }

  /** commit, once the file is written. */
  ghost function Committed(st: State, draft: Draft, actor: string): State {
    st.(raw := st.raw[draft.name := draft.merged],
        filled := st.filled[draft.name := draft.filled],
        pending := st.pending + DiffMap(st.SchemaOf(draft.name), st.FilledOf(draft.name), draft.filled),
        lastModifiedBy := Some(actor),
        files := st.files[draft.name := Parsed(Obj(draft.merged))])
  }

  /** The cached documents of the name are the same. */
  ghost predicate Keeps(st: State, next: State, name: string) {
    Look(st.raw, name) == Look(next.raw, name) && Look(st.filled, name) == Look(next.filled, name)
  }

  /**
   * One name has another document: its file reads back as the raw one, the effective one is that one filled, the actor
   * has signed, and every other name, its file included, is as it was.
   */
  ghost predicate Replaces(st: State, next: State, name: string, actor: string) {
    && name in next.raw && ReadRaw(next.files, name) == Some(next.raw[name])
    && Look(next.filled, name) == Some(Filled(next.SchemaOf(name), next.raw[name]))
    && next.lastModifiedBy == Some(actor) && next.schemas == st.schemas
    && forall other :: other != name ==> Keeps(st, next, other) && Look(st.files, other) == Look(next.files, other)
  }

  lemma CommitReplaces(st: State, draft: Draft, actor: string)
    requires draft.filled == Filled(st.SchemaOf(draft.name), draft.merged)
    ensures Replaces(st, Committed(st, draft, actor), draft.name, actor)
    ensures Committed(st, draft, actor).RawOf(draft.name) == draft.merged
  {
    var next := Committed(st, draft, actor);
    assert next.raw[draft.name] == draft.merged && next.SchemaOf(draft.name) == st.SchemaOf(draft.name);
    assert ReadRaw(next.files, draft.name) == Some(draft.merged);
  }

  ghost function SaveOutcome(setup: Setup, st: State, name: string, body: Fields, written: bool): Outcome {
    if name !in setup.names then UnknownName
    else if !Accepted(setup, st, name, body) then Refused
    else if !written then NotWritten
    else Done
  }

  ghost function Saved(setup: Setup, st: State, name: string, body: Fields, actor: string, written: bool): State {
    if SaveOutcome(setup, st, name, body, written).Done? then Committed(st, DraftOf(st, name, body), actor) else st
  }

  ghost function RestoreOutcome(setup: Setup, st: State, name: string, document: Fields, written: bool): Outcome {
    var filled := Filled(st.SchemaOf(name), document);
    if name !in setup.names then UnknownName
    else if !Accepts(setup, st.SchemaOf(name), name, filled, filled) then Refused
    else if !written then NotWritten
    else Done
  }

  ghost function Restored(setup: Setup, st: State, name: string, document: Fields, actor: string,
      written: bool): State {
    if RestoreOutcome(setup, st, name, document, written).Done? then
      Committed(st, Draft(name, document, Filled(st.SchemaOf(name), document)), actor)
    else st
  }

  /** The drafts of SaveAll: every named file that has a patch, in list order, all against the same state. */
  function Drafts(st: State, names: seq<string>, patches: map<string, Fields>): seq<Draft>
    decreases |names|
  {
    if names == [] then []
    else
      var name, earlier := names[|names| - 1], Drafts(st, names[..|names| - 1], patches);
      if name in patches then earlier + [DraftOf(st, name, patches[name])] else earlier
  }

  ghost predicate AllAccepted(setup: Setup, st: State, names: seq<string>, patches: map<string, Fields>)
    decreases |names|
  {
    names == [] ||
    (var name := names[|names| - 1];
     AllAccepted(setup, st, names[..|names| - 1], patches) && (name in patches ==>
         Accepted(setup, st, name, patches[name])))
  }

  /** How many drafts are written before the first one whose write fails. */
  function WrittenCount(drafts: seq<Draft>, failing: set<string>): (count: nat)
    ensures count <= |drafts|
    ensures forall i :: 0 <= i < count ==> drafts[i].name !in failing
    ensures count < |drafts| ==> drafts[count].name in failing
    decreases |drafts|
  {
    if drafts == [] || drafts[0].name in failing then 0 else 1 + WrittenCount(drafts[1..], failing)
  }

  ghost function CommittedAll(st: State, drafts: seq<Draft>, actor: string): State
    decreases |drafts|
  {
    if drafts == [] then st
    else Committed(CommittedAll(st, drafts[..|drafts| - 1], actor), drafts[|drafts| - 1], actor)
  }

  lemma CommittedStep(st: State, drafts: seq<Draft>, i: nat, actor: string)
    requires i < |drafts|
    ensures CommittedAll(st, drafts[..i + 1], actor) == Committed(CommittedAll(st, drafts[..i], actor), drafts[i],
        actor)
  {
    assert drafts[..i + 1][..i] == drafts[..i];
  }

  ghost function SaveAllOutcome(setup: Setup, st: State, patches: map<string, Fields>, failing: set<string>): Outcome {
    var drafts := Drafts(st, setup.names, patches);
    if !AllAccepted(setup, st, setup.names, patches) then Refused
    else if WrittenCount(drafts, failing) < |drafts| then NotWritten
    else Done
  }

  /** Every draft before the first failing write is committed, in list order, and nothing else. */
  ghost function SavedAll(setup: Setup, st: State, patches: map<string, Fields>, actor: string,
      failing: set<string>): State {
    if !AllAccepted(setup, st, setup.names, patches) then st
    else
      var drafts := Drafts(st, setup.names, patches);
      CommittedAll(st, drafts[..WrittenCount(drafts, failing)], actor)
  }

  /**
   * A file passes the checks of a load: a schema whose restart leaves have reasons, a readable and valid document, and
   * every leaf of the filled document passes the writable hook.
   */
  ghost predicate Loads(setup: Setup, files: map<string, File>, name: string) {
    name in setup.schemas && ReasonsGiven(setup.schemas[name]) && ReadRaw(files, name).Some? &&
    var filled := Filled(setup.schemas[name], ReadRaw(files, name).value);
    setup.valid(setup.schemas[name], filled) == [] && Passes(setup.writable, name, filled, filled)
  }

  ghost function LoadedOne(setup: Setup, st: State, name: string): State {
    if name !in setup.schemas then st
    else
      var read := st.(schemas := st.schemas[name := setup.schemas[name]]);
      if Loads(setup, st.files, name) then
        var raw := ReadRaw(st.files, name).value;
        read.(raw := st.raw[name := raw], filled := st.filled[name := Filled(setup.schemas[name], raw)])
      else read
  }

  ghost function Loaded(setup: Setup, st: State, names: seq<string>): State
    decreases |names|
  {
    if names == [] then st else LoadedOne(setup, Loaded(setup, st, names[..|names| - 1]), names[|names| - 1])
  }

  // ----- The engine -----

  class Engine {
    const setup: Setup
    var schemas: map<string, Schema>
    var raw: map<string, Fields>
    var filled: map<string, Fields>
    var pending: map<string, RestartEntry>
    var lastModifiedBy: Option<string>
    var files: map<string, File>

    function StateOf(): State
      reads this
    {
      State(schemas, raw, filled, pending, lastModifiedBy, files)
    }

    constructor (setup: Setup, files: map<string, File>)
      ensures this.setup == setup
      ensures StateOf() == State(map[], map[], map[], map[], None, files)
    {
      this.setup := setup;
      schemas, raw, filled, pending, lastModifiedBy := map[], map[], map[], map[], None;
      this.files := files;
    }

    /** prepare: the draft of one save and the errors that refuse it. */
    method Prepare(name: string, body: Fields) returns (draft: Draft, errors: seq<Problem>)
      ensures draft == DraftOf(StateOf(), name, body)
      ensures errors == [] <==> Accepted(setup, StateOf(), name, body)
    {
      var schema := StateOf().SchemaOf(name);
      var merged := ApplyPatch(Obj(StateOf().RawOf(name)), Obj(body));
      MergedLook(Obj(StateOf().RawOf(name)), Obj(body), "");
      var document := FillDefaults(schema, merged.fields);
      draft := Draft(name, merged.fields, document);
      var sent, paths := ReadOnly.ReadOnlyPointers(schema, body, "");
      errors := [];
      for i := 0 to |sent|
        invariant |errors| == i
      {
        errors := errors + [Problem(sent[i], "readOnly")];
      }
      ReadOnlyErrors(schema, body, sent, paths);
      errors := errors + setup.valid(schema, document);
      var broken := HookErrors(name, document, body, setup.writable, setup.reachable);
      errors := errors + broken;
    }

    /**
     * commit: writes the file, replaces the cached documents and adds the write's restart entries to the pending
     * ones.
     */
    method Commit(draft: Draft, actor: string, written: bool) returns (diff: seq<RestartEntry>, ok: bool)
      modifies this
      ensures ok == written
      ensures StateOf() == if written then Committed(old(StateOf()), draft, actor) else old(StateOf())
      ensures var added := DiffMap(old(StateOf()).SchemaOf(draft.name), old(StateOf()).FilledOf(draft.name),
          draft.filled);
              written ==> |diff| == |added| && IsListingOf(diff, added)
    {
      diff := DraftDiff(draft);
      if !written {
        return [], false;
      }
      ok := true;
      ghost var added := DiffMap(StateOf().SchemaOf(draft.name), StateOf().FilledOf(draft.name), draft.filled);
      files := files[draft.name := Parsed(Obj(draft.merged))];
      raw := raw[draft.name := draft.merged];
      filled := filled[draft.name := draft.filled];
      AddPending(diff, added);
      lastModifiedBy := Some(actor);
    }

    /** The restart entries of one draft against the document it replaces. */
    method DraftDiff(draft: Draft) returns (diff: seq<RestartEntry>)
      ensures var added := DiffMap(StateOf().SchemaOf(draft.name), StateOf().FilledOf(draft.name), draft.filled);
              |diff| == |added| && IsListingOf(diff, added)
    {
      var schema, before := StateOf().SchemaOf(draft.name), StateOf().FilledOf(draft.name);
      ghost var paths;
      diff, paths := RestartDiff(schema, before, draft.filled, "");
      DiffListsMap(schema, before, draft.filled, diff, paths);
    }

    /** The loop of commit that files the entries under their pointers. */
    method AddPending(diff: seq<RestartEntry>, ghost added: map<string, RestartEntry>)
      requires IsListingOf(diff, added)
      modifies this`pending
      ensures pending == old(pending) + added
    {
      for i := 0 to |diff|
        invariant forall pointer :: pointer in pending <==> pointer in old(pending) || pointer in PointersOf(diff[..i])
        invariant forall pointer :: pointer in pending ==>
          pending[pointer] == if pointer in PointersOf(diff[..i]) then added[pointer] else old(pending)[pointer]
      {
        assert diff[..i + 1] == diff[..i] + [diff[i]];
        assert diff[i] in diff;
        pending := pending[diff[i].pointer := diff[i]];
      }
      assert diff[..|diff|] == diff;
    }

    /** Save: validate, write, replace. */
    method Save(name: string, body: Fields, actor: string, written: bool)
        returns (outcome: Outcome, diff: seq<RestartEntry>)
      modifies this
      ensures outcome == SaveOutcome(setup, old(StateOf()), name, body, written)
      ensures StateOf() == Saved(setup, old(StateOf()), name, body, actor, written)
      ensures outcome.Done? ==> Replaces(old(StateOf()), StateOf(), name, actor)
      ensures outcome.Done? ==> forall path ::
          ReadOnly.ReadsMergedAt(Obj(old(StateOf()).RawOf(name)), Obj(body), Obj(StateOf().RawOf(name)), path)
      ensures !outcome.Done? ==> StateOf() == old(StateOf())
      ensures outcome.Done? ==>
          IsListingOf(diff, DiffMap(old(StateOf()).SchemaOf(name), old(StateOf()).FilledOf(name),
          StateOf().FilledOf(name)))
    {
      if name !in setup.names {
        return UnknownName, [];
      }
      var draft, errors := Prepare(name, body);
      if errors != [] {
        return Refused, [];
      }
      CommitReplaces(StateOf(), draft, actor);
      forall path ensures ReadOnly.ReadsMergedAt(Obj(StateOf().RawOf(name)), Obj(body), Obj(draft.merged), path) {
        ReadOnly.MergedReadsExactly(Obj(StateOf().RawOf(name)), Obj(body), path);
      }
      var entries, ok := Commit(draft, actor, written);
      return if ok then Done else NotWritten, entries;
    }

    /** Restore: a whole document, every leaf of it checked. */
    method Restore(name: string, document: Fields, actor: string, written: bool) returns (outcome: Outcome)
      modifies this
      ensures outcome == RestoreOutcome(setup, old(StateOf()), name, document, written)
      ensures StateOf() == Restored(setup, old(StateOf()), name, document, actor, written)
      ensures outcome.Done? ==>
          Replaces(old(StateOf()), StateOf(), name, actor) && StateOf().RawOf(name) == document
      ensures !outcome.Done? ==> StateOf() == old(StateOf())
    {
      if name !in setup.names {
        return UnknownName;
      }
      var schema := StateOf().SchemaOf(name);
      var full := FillDefaults(schema, document);
      var broken := HookErrors(name, full, full, setup.writable, setup.reachable);
      if setup.valid(schema, full) + broken != [] {
        return Refused;
      }
      CommitReplaces(StateOf(), Draft(name, document, full), actor);
      var diff, ok := Commit(Draft(name, document, full), actor, written);
      return if ok then Done else NotWritten;
    }

    /** SaveAll: every patch is validated before any is written. */
    method SaveAll(patches: map<string, Fields>, actor: string, failing: set<string>) returns (outcome: Outcome)
      modifies this
      ensures outcome == SaveAllOutcome(setup, old(StateOf()), patches, failing)
      ensures StateOf() == SavedAll(setup, old(StateOf()), patches, actor, failing)
    {
      ghost var before := StateOf();
      var list, errors := PrepareAll(patches);
      if errors != [] {
        return Refused;
      }
      var ok := CommitAll(list, actor, failing);
      return if ok then Done else NotWritten;
    }

    /** The first loop of SaveAll: one draft per named file that has a patch, and every error of all of them. */
    method PrepareAll(patches: map<string, Fields>) returns (list: seq<Draft>, errors: seq<Problem>)
      ensures list == Drafts(StateOf(), setup.names, patches)
      ensures errors == [] <==> AllAccepted(setup, StateOf(), setup.names, patches)
    {
      list, errors := [], [];
      for i := 0 to |setup.names|
        invariant list == Drafts(StateOf(), setup.names[..i], patches)
        invariant errors == [] <==> AllAccepted(setup, StateOf(), setup.names[..i], patches)
      {
        var name := setup.names[i];
        assert setup.names[..i + 1][..i] == setup.names[..i];
        if name in patches {
          var draft, failures := Prepare(name, patches[name]);
          var prefixed := seq(|failures|, j requires 0 <= j < |failures| =>
            Problem("/configs/" + name + failures[j].pointer, failures[j].rule));
          errors := errors + prefixed;
          list := list + [draft];
        }
      }
      assert setup.names[..|setup.names|] == setup.names;
    }

    /** The second loop of SaveAll: commits in order, up to the first write that fails. */
    method CommitAll(list: seq<Draft>, actor: string, failing: set<string>) returns (ok: bool)
      modifies this
      ensures ok <==> WrittenCount(list, failing) == |list|
      ensures StateOf() == CommittedAll(old(StateOf()), list[..WrittenCount(list, failing)], actor)
    {
      ghost var before, count := StateOf(), WrittenCount(list, failing);
      for i := 0 to |list|
        invariant StateOf() == CommittedAll(before, list[..i], actor)
        invariant i <= count
      {
        CommittedStep(before, list, i, actor);
        var diff, written := Commit(list[i], actor, list[i].name !in failing);
        if !written {
          assert count == i;
          return false;
        }
      }
      assert count == |list|;
      return true;
    }

    /** loadOne: reads the schema and the file of one name, and keeps both only when the filled document passes. */
    method LoadOne(name: string) returns (ok: bool)
      modifies this
      ensures ok == Loads(setup, old(StateOf()).files, name)
      ensures StateOf() == LoadedOne(setup, old(StateOf()), name)
    {
      if name !in setup.schemas {
        return false;
      }
      var schema := setup.schemas[name];
      schemas := schemas[name := schema];
      var document := ReadRaw(files, name);
      if document.None? {
        return false;
      }
      var full := FillDefaults(schema, document.value);
      var noHook: Hook := (pointer, value, file, whole) => [];
      var broken := HookErrors(name, full, full, setup.writable, noHook);
      assert Passes(noHook, name, full, full);
      var unexplained := FlaggedWithoutReason(schema, "");
      if setup.valid(schema, full) + broken != [] || unexplained != [] {
        return false;
      }
      raw := raw[name := document.value];
      filled := filled[name := full];
      return true;
    }

    /** Load: every file in list order; one failure fails the load, the others stay loaded. */
    method Load() returns (ok: bool)
      modifies this
      ensures ok <==> forall name :: name in setup.names ==> Loads(setup, old(StateOf()).files, name)
      ensures StateOf() == Loaded(setup, old(StateOf()), setup.names)
    {
      ok := true;
      for i := 0 to |setup.names|
        invariant StateOf() == Loaded(setup, old(StateOf()), setup.names[..i])
        invariant StateOf().files == old(StateOf()).files
        invariant ok <==> forall j :: 0 <= j < i ==> Loads(setup, old(StateOf()).files, setup.names[j])
      {
        assert setup.names[..i + 1][..i] == setup.names[..i];
        var loaded := LoadOne(setup.names[i]);
        if !loaded {
          ok := false;
        }
      }
      assert setup.names[..|setup.names|] == setup.names;
    }

    method ClearRestart()
      modifies this`pending
      ensures StateOf() == old(StateOf()).(pending := map[])
    {
      pending := map[];
    }
  }

  lemma ReadOnlyErrors(schema: Schema, body: Fields, sent: seq<string>, paths: seq<seq<string>>)
    requires ReadOnly.Lists(path => ReadOnly.ReadOnlyAt(schema, path), Obj(body), {}, "", sent, paths)
    ensures sent == [] <==> SendsNoReadOnly(schema, body)
  {
    if sent != [] {
      assert paths[0] in paths;
    }
    if !SendsNoReadOnly(schema, body) {
      var path :| ReadOnly.ReadOnlyAt(schema, path) && ReadOnly.Sent(Obj(body), path);
      assert path in paths;
    }
  }

  function PointersOf(diff: seq<RestartEntry>): set<string> {
    set entry | entry in diff :: entry.pointer
  }

  /** The list holds exactly the entries of the map. */
  ghost predicate IsListingOf(diff: seq<RestartEntry>, added: map<string, RestartEntry>) {
    PointersOf(diff) == added.Keys && forall entry :: entry in diff ==>
        entry.pointer in added && added[entry.pointer] == entry
  }

  /** restartDiff lists the entries of the write's map, one each. */
  lemma DiffListsMap(schema: Schema, before: Fields, after: Fields, diff: seq<RestartEntry>, paths: seq<seq<string>>)
    requires |diff| == |paths| && Leaves.Distinct(paths)
    requires forall path :: path in paths <==> NeedsRestart(schema, before, after, path)
    requires forall i :: 0 <= i < |diff| ==>
        FlaggedAt(schema, paths[i]).Some? && diff[i] == EntryAt(schema, "", paths[i])
    ensures IsListingOf(diff, DiffMap(schema, before, after))
    ensures |diff| == |DiffMap(schema, before, after)|
  {
    var added := DiffMap(schema, before, after);
    forall i | 0 <= i < |diff| ensures diff[i].pointer in added && added[diff[i].pointer] == diff[i] {
      assert paths[i] in paths;
      DiffMapExact(schema, before, after, paths[i]);
    }
    forall pointer | pointer in added ensures pointer in PointersOf(diff) {
      PointerIsListed(schema, before, after, diff, paths, pointer);
    }
    forall i, j | 0 <= i < j < |diff| ensures diff[i].pointer != diff[j].pointer {
      if diff[i].pointer == diff[j].pointer { ExtendInjective("", paths[i], paths[j]); }
    }
    ListingCount(diff, added);
  }

  lemma ListingCount(diff: seq<RestartEntry>, added: map<string, RestartEntry>)
    requires IsListingOf(diff, added)
    requires forall i, j :: 0 <= i < j < |diff| ==> diff[i].pointer != diff[j].pointer
    ensures |diff| == |added|
  {
    var pointers := seq(|diff|, i requires 0 <= i < |diff| => diff[i].pointer);
    forall x ensures x in pointers <==> x in PointersOf(diff) {
      if x in PointersOf(diff) {
        var entry :| entry in diff && entry.pointer == x;
        var i :| 0 <= i < |diff| && diff[i] == entry;
        assert pointers[i] == x;
      }
    }
    DistinctCount(pointers, PointersOf(diff));
  }

  lemma PointerIsListed(schema: Schema, before: Fields, after: Fields, diff: seq<RestartEntry>,
      paths: seq<seq<string>>, pointer: string)
    requires |diff| == |paths|
    requires forall path :: path in paths <==> NeedsRestart(schema, before, after, path)
    requires forall i :: 0 <= i < |diff| ==>
        FlaggedAt(schema, paths[i]).Some? && diff[i] == EntryAt(schema, "", paths[i])
    requires pointer in DiffMap(schema, before, after)
    ensures pointer in PointersOf(diff)
  {
    var path :| path in DiffPaths(schema, before, after) && Extend("", path) == pointer;
    DiffMapExact(schema, before, after, path);
    var i :| 0 <= i < |paths| && paths[i] == path;
    assert diff[i] in diff && diff[i].pointer == pointer;
  }

  lemma {:induction false} DistinctCount<T>(s: seq<T>, all: set<T>)
    requires forall i, j :: 0 <= i < j < |s| ==> s[i] != s[j]
    requires forall x :: x in s <==> x in all
    ensures |s| == |all|
  {
    if s != [] {
      forall x ensures x in s[1..] <==> x in all - {s[0]} {
        if x in all - {s[0]} {
          var i :| 0 <= i < |s| && s[i] == x;
          assert s[1..][i - 1] == x;
        }
      }
      DistinctCount(s[1..], all - {s[0]});
    }
  }
}
