/**
 * Whether the next load accepts the files that a run has stored, although a save checks the leaves of its patch only.
 */
module BootAgain {
  import opened Engine
  import opened EngineRuns
  import opened GoStrings
  import opened Hooks
  import opened Json
  import opened Leaves
  import opened MergePatch
  import opened Pointer
  import opened LoginRules
  import opened Rules
  import opened Schema

  // ----- Which rules look at one leaf alone -----

  /** The rules of a file that look at one leaf alone. */
  predicate LeafOk(pf: Platform, name: string, pointer: string, value: Json) {
    match name
    case "app" => AppRules(pf, pointer, value) == []
    case "machines" => pointer == SUBNET && value.Str? ==> pf.isCIDR(value.text)
    case "storage" =>
      HasPrefix(pointer, ARTIFACT_PATHS) && HasSuffix(pointer, PATH) && value.Str? ==>
          pf.isAbs(value.text)
    case _ => true
  }

  /** The others are the storage rules of the file's maps, and the login rules. */
  ghost predicate MapsOk(pf: Platform, name: string, pointer: string, document: Fields) {
    forall kind :: KnownKind(kind) && kind.file == name ==> StoragePathRules(pf, pointer, document, kind.Base()) == []
  }

  lemma RulesSplit(pf: Platform, pointer: string, value: Json, name: string, document: Fields)
    requires name != "auth"
    ensures CodeRules(pf, pointer, value, name, document) == [] <==>
            LeafOk(pf, name, pointer, value) && MapsOk(pf, name, pointer, document)
  {
    FilesOfKinds();
    if name == "machines" {
      assert MapsOk(pf, name, pointer, document) <==>
        StoragePathRules(pf, pointer, document, MACHINES.Base()) == []
        && StoragePathRules(pf, pointer, document, PROVISIONERS.Base()) == [];
    } else if name == "storage" {
      assert MapsOk(pf, name, pointer, document) <==> StoragePathRules(pf, pointer, document, TEMPLATES.Base()) == [];
    }
  }

  lemma FilesOfKinds()
    ensures KnownKind(MACHINES) && KnownKind(PROVISIONERS) && KnownKind(TEMPLATES)
    ensures forall kind :: KnownKind(kind) ==> kind.file == if kind == TEMPLATES then "storage" else "machines"
    ensures MACHINES != TEMPLATES && PROVISIONERS != TEMPLATES
  {
    assert "machines"[0] != "storage"[0];
  }

  // ----- Where a leaf of an effective document comes from -----

  /** The leaf that a default of the schema puts at the path. */
  function PresetAt(schema: Schema, path: seq<string>): Option<Json>
    decreases schema
  {
    if path == [] || path[0] !in schema.Children() then None
    else
      var child := schema.Children()[path[0]];
      if child.Nested() then PresetAt(child, path[1..])
      else if child.preset.Some? then LeafAt(child.preset.value, path[1..])
      else None
  }

  lemma {:induction false} LeafOrigin(schema: Schema, config: Fields, path: seq<string>)
    requires LeafAt(Obj(Filled(schema, config)), path).Some?
    ensures LeafAt(Obj(config), path) == LeafAt(Obj(Filled(schema, config)), path)
            || PresetAt(schema, path) == LeafAt(Obj(Filled(schema, config)), path)
    decreases schema
  {
    var key := path[0];
    FilledLook(schema, config, key);
    if key in schema.Children() && schema.Children()[key].Nested() {
      LeafOrigin(schema.Children()[key], FieldsOf(Get(config, key)), path[1..]);
    }
  }

  /** A plain value of the merged document that filling keeps was sent, or is in the effective document before. */
  lemma MergedLeafIsOld(schema: Schema, raw: Fields, body: Fields, path: seq<string>, value: Json)
    requires Plain(value) && LeafAt(Obj(Filled(schema, MergedFields(raw, body))), path) == Some(value)
    requires ValueAt(Obj(MergedFields(raw, body)), path) == value
    ensures LeafAt(Obj(body), path) == Some(value) || LeafAt(Obj(Filled(schema, raw)), path) == Some(value)
  {
    MergeFrame(Obj(raw), Obj(body), path);
    if ValueAt(Obj(body), path) == value {
      LeafIsValue(Obj(body), path);
    } else {
      LeafIsValue(Obj(Filled(schema, MergedFields(raw, body))), path);
      FillKeepsValues(schema, MergedFields(raw, body), path);
      FillKeepsValues(schema, raw, path);
      LeafIsValue(Obj(Filled(schema, raw)), path);
    }
  }

  // ----- Leaves under a storage-path map -----

  lemma UnderKind(kind: Kind, path: seq<string>)
    requires SafeKind(kind) && HasPrefix(Extend("", path), kind.Base() + "/")
    ensures path == [kind.section, kind.key] + UnescapeAll(Split(TrimPrefix(Extend("", path), kind.Base() + "/"), '/'))
  {
    var rest := TrimPrefix(Extend("", path), kind.Base() + "/");
    SegmentsOfExtend("", path);
    assert SegmentsOf("") + path == path;
    assert Extend("", path) == kind.Base() + ['/'] + rest;
    SegmentsBelow(kind, rest);
  }

  lemma SegmentsBelow(kind: Kind, rest: string)
    requires SafeKind(kind)
    ensures SegmentsOf(kind.Base() + ['/'] + rest) == [kind.section, kind.key] + UnescapeAll(Split(rest, '/'))
  {
    var parts := Split(rest, '/');
    SplitConcat(kind.Base(), '/', rest);
    BaseParts(kind);
    DropFirst("", [kind.section, kind.key], parts);
    UnescapeAllConcat([kind.section, kind.key], parts);
    UnescapePair(kind.section, kind.key);
  }

  lemma DropFirst(first: string, pair: seq<string>, parts: seq<string>)
    ensures ([first] + pair + parts)[1..] == pair + parts
  {
  }

  lemma UnescapePair(a: string, b: string)
    requires SafeKey(a) && SafeKey(b)
    ensures UnescapeAll([a, b]) == [a, b]
  {
    SafeUnescape(a);
    SafeUnescape(b);
  }

  lemma BaseParts(kind: Kind)
    requires SafeKind(kind)
    ensures Split(kind.Base(), '/') == [""] + [kind.section, kind.key]
  {
    assert kind.Base() == "" + ['/'] + (kind.section + ['/'] + kind.key);
    SplitConcat("", '/', kind.section + ['/'] + kind.key);
    SplitConcat(kind.section, '/', kind.key);
    SplitWhole(kind.section, '/');
    SplitWhole(kind.key, '/');
  }

  lemma SafeUnescape(key: string)
    requires SafeKey(key)
    ensures Unescape(key) == key
  {
    EscapeSafe(key);
    UnescapeEscape(key);
  }

  /** A leaf whose pointer the rule reads as a field of an entry is that field. */
  lemma FieldShape(kind: Kind, path: seq<string>, field: string) returns (id: string)
    requires SafeKind(kind) && HasPrefix(Extend("", path), kind.Base() + "/") && SafeKey(field) && field != ""
    requires CutAfter(TrimPrefix(Extend("", path), kind.Base() + "/"), '/') == field
    ensures path == LeafPath(kind, id, field)
  {
    var rest := TrimPrefix(Extend("", path), kind.Base() + "/");
    UnderKind(kind, path);
    id := FieldParts(rest, field);
    assert [kind.section, kind.key] + [id, field] == LeafPath(kind, id, field);
  }

  lemma FieldParts(rest: string, field: string) returns (id: string)
    requires SafeKey(field) && field != "" && CutAfter(rest, '/') == field
    ensures UnescapeAll(Split(rest, '/')) == [id, field]
  {
    var before := CutBefore(rest, '/');
    CutRejoins(rest, '/');
    SplitConcat(before, '/', field);
    SplitWhole(before, '/');
    SplitWhole(field, '/');
    SafeUnescape(field);
    id := Unescape(before);
    assert [before] + [field] == [before, field];
    assert UnescapeAll([before, field]) == [id, field];
  }

  /** What the map's part of the invariant says of a document. */
  ghost predicate MapSafe(pf: Platform, document: Fields, kind: Kind) {
    SafeIds(document, kind) && Unique(pf, document, kind) && PathsGiven(document, kind)
  }

  /** The rule passes a path of a safe map if it passed the same path of another document. */
  lemma PathStillPasses(pf: Platform, kind: Kind, before: Fields, after: Fields, id: string)
    requires SafeKind(kind) && MapSafe(pf, after, kind)
    requires !FieldAt(after, kind, id, "path").Null? && FieldAt(before, kind, id, "path") ==
        FieldAt(after, kind, id, "path")
    requires StoragePathRules(pf, Extend("", LeafPath(kind, id, "path")), before, kind.Base()) == []
    ensures StoragePathRules(pf, Extend("", LeafPath(kind, id, "path")), after, kind.Base()) == []
  {
    FieldInEntries(after, kind, id, "path");
    EscapeSafe(id);
    var path := FieldAt(after, kind, id, "path").text;
    PathRuleExact(pf, before, kind, id, path);
    PathRuleExact(pf, after, kind, id, path);
    forall other | other != id && other in EntriesIn(after, kind)
      ensures !SamePath(pf, TextOf(FieldAt(after, kind, other, "path")), path)
    {
      assert !SameFolder(pf, after, kind, other, id);
    }
  }

  lemma DefaultStillPasses(pf: Platform, kind: Kind, before: Fields, after: Fields, id: string)
    requires SafeKind(kind) && MapSafe(pf, after, kind) && !FieldAt(after, kind, id, "default").Null?
    requires StoragePathRules(pf, Extend("", LeafPath(kind, id, "default")), before, kind.Base()) == []
    ensures StoragePathRules(pf, Extend("", LeafPath(kind, id, "default")), after, kind.Base()) == []
  {
    DefaultRuleExact(pf, before, kind, id);
    DefaultRuleExact(pf, after, kind, id);
    FieldInEntries(after, kind, id, "default");
    EscapeSafe(id);
    if other :| other != id && FieldAt(after, kind, other, "default") == Bool(true) {
      assert !BothDefault(after, kind, id, other);
    }
  }

  /** A leaf that a save left as it was still passes the storage rule. */
  lemma OldLeafStillPasses(pf: Platform, kind: Kind, before: Fields, after: Fields, path: seq<string>)
    requires SafeKind(kind) && MapSafe(pf, after, kind)
    requires ValueAt(Obj(after), path) == ValueAt(Obj(before), path) && !ValueAt(Obj(after), path).Null?
    requires StoragePathRules(pf, Extend("", path), before, kind.Base()) == []
    ensures StoragePathRules(pf, Extend("", path), after, kind.Base()) == []
  {
    FieldsAreSafe();
    if HasPrefix(Extend("", path), kind.Base() + "/") {
      var field := CutAfter(TrimPrefix(Extend("", path), kind.Base() + "/"), '/');
      if field == "path" {
        var id := FieldShape(kind, path, field);
        PathStillPasses(pf, kind, before, after, id);
      } else if field == "default" {
        var id := FieldShape(kind, path, field);
        DefaultStillPasses(pf, kind, before, after, id);
      }
    }
  }

  lemma FieldsAreSafe()
    ensures SafeKey("path") && SafeKey("default")
  {
    SafeText("path");
    SafeText("default");
  }

  // ----- One save -----

  /** Every leaf that a default of the schema brings passes the rules that look at one leaf alone. */
  ghost predicate PresetsOk(pf: Platform, name: string, schema: Schema) {
    forall path :: PresetAt(schema, path).Some? ==> LeafOk(pf, name, Extend("", path), PresetAt(schema, path).value)
  }

  /** The hook is codeRules, and the schemas of the files are as codeRules takes them to be. */
  ghost predicate RulesFit(pf: Platform, setup: Setup) {
    && IsCodeRules(pf, setup.writable) && !pf.isAbs("")
    && (forall name :: name in setup.names ==> name in setup.schemas && PresetsOk(pf, name, setup.schemas[name]))
    && (forall kind :: KnownKind(kind) && kind.file in setup.names ==>
          HasKind(setup.schemas[kind.file], kind) && RequiresPaths(setup, kind))
  }

  lemma KindFits(pf: Platform, setup: Setup, kind: Kind)
    requires RulesFit(pf, setup) && KnownKind(kind) && kind.file in setup.names
    ensures ChecksKind(pf, setup, kind)
  {
    CodeRulesCover(pf, setup.writable, kind);
    KindsAreSafe(kind);
  }

  /** Both documents of a save are safe in each of the file's storage-path maps. */
  lemma SavedMapIsSafe(pf: Platform, setup: Setup, kind: Kind, raw: Fields, body: Fields)
    requires ChecksKind(pf, setup, kind)
    requires var schema := setup.schemas[kind.file];
             var before, after := Filled(schema, raw), Filled(schema, MergedFields(raw, body));
             && setup.valid(schema, before) == [] && setup.valid(schema, after) == []
             && Passes(setup.writable, kind.file, before, before) && Passes(setup.writable, kind.file, after, body)
    ensures MapSafe(pf, Filled(setup.schemas[kind.file], MergedFields(raw, body)), kind)
  {
    WholeCheckGivesUnique(pf, setup.writable, kind, Filled(setup.schemas[kind.file], raw));
    IncrementalCheckKeepsUnique(pf, setup.writable, kind, setup.schemas[kind.file], raw, body);
  }

  lemma PassesAt(hook: Hook, name: string, document: Fields, scope: Fields, path: seq<string>)
    requires Passes(hook, name, document, scope) && Sends(scope, path)
    ensures hook(Extend("", path), ValueAt(Obj(document), path), name, document) == []
  {
  }

  /** A leaf of the effective document after the save that was there before. */
  lemma OldLeafPasses(pf: Platform, setup: Setup, name: string, before: Fields, after: Fields, path: seq<string>)
    requires RulesFit(pf, setup) && name in setup.names && name != "auth"
    requires Passes(setup.writable, name, before, before)
    requires forall kind :: KnownKind(kind) && kind.file == name ==> MapSafe(pf, after, kind)
    requires Sends(before, path) && ValueAt(Obj(after), path) == ValueAt(Obj(before), path)
    ensures CodeRules(pf, Extend("", path), ValueAt(Obj(after), path), name, after) == []
  {
    var pointer, value := Extend("", path), ValueAt(Obj(after), path);
    LeafIsValue(Obj(before), path);
    PassesAt(setup.writable, name, before, before, path);
    assert CodeRules(pf, pointer, value, name, before) == [];
    RulesSplit(pf, pointer, value, name, before);
    RulesSplit(pf, pointer, value, name, after);
    forall kind | KnownKind(kind) && kind.file == name ensures StoragePathRules(pf, pointer, after, kind.Base()) == [] {
      KindsAreSafe(kind);
      OldLeafStillPasses(pf, kind, before, after, path);
    }
  }

  /** A leaf that a default brought lies under no storage-path map. */
  lemma PresetLeafPasses(pf: Platform, setup: Setup, name: string, merged: Fields, path: seq<string>, value: Json)
    requires RulesFit(pf, setup) && name in setup.names && name != "auth"
    requires LeafAt(Obj(Filled(setup.schemas[name], merged)), path) == Some(value) && !value.Null?
    requires PresetAt(setup.schemas[name], path) == Some(value) && ValueAt(Obj(merged), path) != value
    ensures CodeRules(pf, Extend("", path), value, name, Filled(setup.schemas[name], merged)) == []
  {
    var pointer, after := Extend("", path), Filled(setup.schemas[name], merged);
    LeafIsValue(Obj(after), path);
    RulesSplit(pf, pointer, value, name, after);
    forall kind | KnownKind(kind) && kind.file == name ensures StoragePathRules(pf, pointer, after, kind.Base()) == [] {
      KindsAreSafe(kind);
      if HasPrefix(pointer, kind.Base() + "/") {
        UnderKind(kind, path);
        assert path == [kind.section, kind.key] + path[2..];
        FillKeepsEntries(setup.schemas[name], merged, kind, path[2..]);
      }
    }
  }

  /**
   * What a save stores passes the whole check of a load, login apart, when what it found did: its own leaves were
   * checked, the leaves it left alone still pass, and the leaves it laid bare are defaults.
   */
  lemma SavePassesWhole(pf: Platform, setup: Setup, name: string, raw: Fields, body: Fields)
    requires RulesFit(pf, setup) && name in setup.names && name != "auth"
    requires var schema := setup.schemas[name];
             var before, after := Filled(schema, raw), Filled(schema, MergedFields(raw, body));
             && setup.valid(schema, before) == [] && setup.valid(schema, after) == []
             && Passes(setup.writable, name, before, before) && Passes(setup.writable, name, after, body)
    ensures var after := Filled(setup.schemas[name], MergedFields(raw, body));
        Passes(setup.writable, name, after, after)
  {
    var schema := setup.schemas[name];
    var before, after := Filled(schema, raw), Filled(schema, MergedFields(raw, body));
    forall kind | KnownKind(kind) && kind.file == name ensures MapSafe(pf, after, kind) {
      KindFits(pf, setup, kind);
      SavedMapIsSafe(pf, setup, kind, raw, body);
    }
    forall path | Sends(after, path)
        ensures setup.writable(Extend("", path), ValueAt(Obj(after), path), name, after) == [] {
      var value := ValueAt(Obj(after), path);
      LeafIsValue(Obj(after), path);
      LeafOrigin(schema, MergedFields(raw, body), path);
      if ValueAt(Obj(MergedFields(raw, body)), path) == value {
        MergedLeafIsOld(schema, raw, body, path, value);
        if LeafAt(Obj(body), path) == Some(value) {
          PassesAt(setup.writable, name, after, body, path);
        } else {
          LeafIsValue(Obj(before), path);
          OldLeafPasses(pf, setup, name, before, after, path);
        }
      } else {
        LeafIsValue(Obj(MergedFields(raw, body)), path);
        PresetLeafPasses(pf, setup, name, MergedFields(raw, body), path, value);
      }
    }
  }

  // ----- Every run -----

  /** Every effective document passes the whole check of a load, login apart. */
  ghost predicate Checked(setup: Setup, st: State) {
    forall name :: name in setup.names && name != "auth" ==>
      Passes(setup.writable, name, st.FilledOf(name), st.FilledOf(name))
  }

  lemma StepKeepsChecked(pf: Platform, setup: Setup, st: State, op: Op)
    requires RulesFit(pf, setup) && Coherent(setup, st) && Checked(setup, st)
    ensures Checked(setup, Step(setup, st, op))
  {
    var next := Step(setup, st, op);
    forall name | name in setup.names && name != "auth"
      ensures Passes(setup.writable, name, next.FilledOf(name), next.FilledOf(name))
    {
      assert NameCoherent(setup, st, name);
      var change := StepExplained(setup, st, op, name);
      ChangeKeepsChecked(pf, setup, st, op, next, name, change);
    }
  }

  lemma ChangeKeepsChecked(pf: Platform, setup: Setup, st: State, op: Op, next: State, name: string, change: Change)
    requires RulesFit(pf, setup) && name in setup.names && name != "auth" && NameCoherent(setup, st, name)
    requires Passes(setup.writable, name, st.FilledOf(name), st.FilledOf(name))
    requires Explains(setup, st, op, next, name, change)
    ensures Passes(setup.writable, name, next.FilledOf(name), next.FilledOf(name))
  {
    match change {
      case Same =>
        assert next.FilledOf(name) == st.FilledOf(name);
      case FromSave(body) =>
        SavePassesWhole(pf, setup, name, st.raw[name], body);
        assert next.FilledOf(name) == DraftOf(st, name, body).filled;
      case FromRestore(document) =>
        assert next.FilledOf(name) == Filled(st.SchemaOf(name), document);
      case FromLoad =>
        assert next.FilledOf(name) == Filled(setup.schemas[name], ReadRaw(st.files, name).value);
    }
  }

  lemma {:induction false} RunKeepsChecked(pf: Platform, setup: Setup, st: State, ops: seq<Op>)
    requires RulesFit(pf, setup) && Coherent(setup, st) && Checked(setup, st)
    ensures Checked(setup, Run(setup, st, ops))
    decreases |ops|
  {
    if ops != [] {
      StepKeepsChecked(pf, setup, st, ops[0]);
      StepCoherent(setup, st, ops[0]);
      RunKeepsChecked(pf, setup, Step(setup, st, ops[0]), ops[1..]);
    }
  }

  lemma BootIsChecked(setup: Setup, files: map<string, File>)
    requires Boots(setup, files)
    ensures Checked(setup, Booted(setup, files))
  {
    forall name | name in setup.names
      ensures Passes(setup.writable, name, Booted(setup, files).FilledOf(name), Booted(setup, files).FilledOf(name))
    {
      var loaded := LoadedAt(setup, State(map[], map[], map[], map[], None, files), setup.names, name);
      assert Booted(setup, files).FilledOf(name) == Filled(setup.schemas[name], ReadRaw(files, name).value);
    }
  }

  /** Login is off, or the client id and the issuer are proper unless they are null. */
  predicate LoginProper(pf: Platform, document: Fields) {
    LoginEnabled(document) ==>
      (Sends(document, CLIENT_PATH) ==> ClientProper(pf, document))
          && (Sends(document, ISSUER_PATH) ==> IssuerProper(pf, document))
  }

  /** A file loads again exactly when its effective document passes the whole check, given that it holds the raw one. */
  lemma LoadsAgain(setup: Setup, st: State, name: string)
    requires NameCoherent(setup, st, name) && ReadRaw(st.files, name) == Some(st.raw[name])
    ensures Loads(setup, st.files, name) <==> Passes(setup.writable, name, st.FilledOf(name), st.FilledOf(name))
  {
    assert st.FilledOf(name) == Filled(setup.schemas[name], st.raw[name]);
  }

  /**
   * Whatever is saved, restored, refused or fails to be written, after a successful load and without outside edits: the
   * next load of the stored files succeeds if and only if the login settings in effect are proper.
   */
  lemma NextLoadExactly(pf: Platform, setup: Setup, files: map<string, File>, ops: seq<Op>)
    requires RulesFit(pf, setup) && Boots(setup, files) && NoEdits(ops)
    ensures var end := Run(setup, Booted(setup, files), ops);
            Boots(setup, end.files) <==> ("auth" in setup.names ==> LoginProper(pf, end.FilledOf("auth")))
  {
    var end := Run(setup, Booted(setup, files), ops);
    BootCoherent(setup, files);
    BootIsChecked(setup, files);
    EveryRunIsCoherent(setup, files, ops);
    RunKeepsChecked(pf, setup, Booted(setup, files), ops);
    forall name | name in setup.names
      ensures Loads(setup, end.files, name) <==> (name == "auth" ==> LoginProper(pf, end.FilledOf("auth")))
    {
      LoadsAgain(setup, end, name);
      if name == "auth" { LoginCheckedExactly(pf, setup.writable, end.FilledOf(name), end.FilledOf(name)); }
    }
  }
}
