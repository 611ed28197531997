/**
 * The agent's own configuration rules (internal/config/validate.go) and what checking only a patch's leaves
 * guarantees.
 */
module Rules {
  import opened GoStrings
  import opened Hooks
  import opened Json
  import opened Leaves
  import opened MergePatch
  import opened Pointer
  import opened Schema

  /** The platform's and the network library's predicates the rules ask. */
  datatype Platform = Platform(
    isAbs: string -> bool,
    clean: string -> string,
    isIP: string -> bool,
    isCIDR: string -> bool,
    isHttps: string -> bool,
    isBlank: string -> bool)

  const BUILTIN := "builtin"

  /** stringValue: the empty string for every other value. */
  function TextOf(value: Json): string {
    if value.Str? then value.text else ""
  }

  function FlagOf(value: Json): bool {
    value.Bool? && value.flag
  }

  predicate SamePath(pf: Platform, a: string, b: string) {
    pf.clean(a) == pf.clean(b)
  }

  function EntryOf(entries: Fields, id: string): Fields {
    FieldsOf(Get(entries, id))
  }

  /** nested, for the segments of a base pointer. */
  function EntriesAt(document: Fields, base: string): Fields {
    FieldsOf(ValueAt(Obj(document), Split(TrimPrefix(base, "/"), '/')))
  }

  predicate PathTaken(pf: Platform, entries: Fields, id: string) {
    exists other :: other in entries && other != id &&
                    SamePath(pf, TextOf(Get(EntryOf(entries, other), "path")),
                        TextOf(Get(EntryOf(entries, id), "path")))
  }

  predicate DefaultTaken(entries: Fields, id: string) {
    exists other :: other in entries && other != id && FlagOf(Get(EntryOf(entries, other), "default"))
  }

  function StoragePathRules(pf: Platform, pointer: string, document: Fields, base: string): seq<Problem> {
    if !HasPrefix(pointer, base + "/") then []
    else
      var rest := TrimPrefix(pointer, base + "/");
      var id, field := CutBefore(rest, '/'), CutAfter(rest, '/');
      var entries := EntriesAt(document, base);
      if id == BUILTIN then [Problem(base + "/" + id, "pattern")]
      else if field == "path" then
        if !pf.isAbs(TextOf(Get(EntryOf(entries, id), "path"))) then [Problem(pointer, "pattern")]
        else if PathTaken(pf, entries, id) then [Problem(pointer, "unique")]
        else []
      else if field == "default" && FlagOf(Get(EntryOf(entries, id), "default")) && DefaultTaken(entries, id) then
        [Problem(pointer, "unique")]
      else []
  }

  /** nested: descends through objects, the empty map as soon as one is missing. */
  method Nested(document: Fields, keys: seq<string>) returns (node: Fields)
    ensures node == FieldsOf(ValueAt(Obj(document), keys))
  {
    node := document;
    for i := 0 to |keys|
      invariant ValueAt(Obj(node), keys[i..]) == ValueAt(Obj(document), keys)
    {
      var child := Get(node, keys[i]);
      if !child.Obj? {
        NullBelow(keys[i + 1..]);
        return map[];
      }
      node := child.fields;
    }
  }

  /** storagePathRules: Go's branches and its two loops over the other entries. */
  method CheckStoragePath(pf: Platform, pointer: string, document: Fields, base: string) returns (errs: seq<Problem>)
    ensures errs == StoragePathRules(pf, pointer, document, base)
  {
    if !HasPrefix(pointer, base + "/") {
      return [];
    }
    var rest := TrimPrefix(pointer, base + "/");
    var id, field := CutBefore(rest, '/'), CutAfter(rest, '/');
    if id == BUILTIN {
      return [Problem(base + "/" + id, "pattern")];
    }
    var entries := Nested(document, Split(TrimPrefix(base, "/"), '/'));
    var entry := EntryOf(entries, id);
    var todo := entries.Keys;
    if field == "path" {
      var path := TextOf(Get(entry, "path"));
      if !pf.isAbs(path) {
        return [Problem(pointer, "pattern")];
      }
      while todo != {}
        invariant todo <= entries.Keys
        invariant forall other :: other in entries.Keys - todo && other != id ==>
          !SamePath(pf, TextOf(Get(EntryOf(entries, other), "path")), path)
        decreases |todo|
      {
        var other :| other in todo;
        todo := todo - {other};
        if other != id && SamePath(pf, TextOf(Get(EntryOf(entries, other), "path")), path) {
          return [Problem(pointer, "unique")];
        }
      }
    } else if field == "default" {
      if !FlagOf(Get(entry, "default")) {
        return [];
      }
      while todo != {}
        invariant todo <= entries.Keys
        invariant forall other :: other in entries.Keys - todo && other != id ==>
          !FlagOf(Get(EntryOf(entries, other), "default"))
        decreases |todo|
      {
        var other :| other in todo;
        todo := todo - {other};
        if other != id && FlagOf(Get(EntryOf(entries, other), "default")) {
          return [Problem(pointer, "unique")];
        }
      }
    }
    return [];
  }

  /** One map of storage paths: the file, and the section and key it lies under. */
  datatype Kind = Kind(file: string, section: string, key: string)
  {
    function Base(): string { "/" + section + "/" + key }
  }

  const MACHINES := Kind("machines", "provisioning", "machines_paths")
  const PROVISIONERS := Kind("machines", "provisioning", "provisioners_paths")
  const TEMPLATES := Kind("storage", "template_sources", "storage_paths")

  // Pointers are spelled key by key.
  const BIND_ADDRESS := "/" + "server" + "/" + "bind_address"
  const BROWSER_ROOT := "/" + "file_browser" + "/" + "root"
  const SUBNET := "/" + "provisioning" + "/" + "network" + "/" + "subnet"
  const APPLICATIONS := "/" + "applications" + "/"
  const ARTIFACT_PATHS := "/" + "artifact_storage" + "/" + "paths" + "/"
  const PATH := "/" + "path"
  const CLIENT_ID := "/" + "oidc" + "/" + "client_id"
  const ISSUER := "/" + "oidc" + "/" + "issuer"

  function AppRules(pf: Platform, pointer: string, value: Json): seq<Problem> {
    if pointer == BIND_ADDRESS && value.Str? && value.text != "" && !pf.isIP(value.text) then
      [Problem(pointer, "format")]
    else if pointer == BROWSER_ROOT && value.Str? && value.text != "" && !pf.isAbs(value.text) then
      [Problem(pointer, "pattern")]
    else if HasPrefix(pointer, APPLICATIONS) && HasSuffix(pointer, PATH) && value.Str?
        && !pf.isAbs(value.text) then
      [Problem(pointer, "pattern")]
    else []
  }

  function AuthRules(pf: Platform, pointer: string, value: Json, document: Fields): seq<Problem> {
    var enabled := FlagOf(Get(FieldsOf(Get(document, "oidc")), "enabled"));
    if pointer == CLIENT_ID && enabled && pf.isBlank(TextOf(value)) then [Problem(pointer, "required")]
    else if pointer == ISSUER && enabled && !pf.isHttps(TextOf(value)) then [Problem(pointer, "format")]
    else []
  }

  function MachinesRules(pf: Platform, pointer: string, value: Json, document: Fields): seq<Problem> {
    if pointer == SUBNET && value.Str? && !pf.isCIDR(value.text) then
        [Problem(pointer, "format")]
    else
      var errs := StoragePathRules(pf, pointer, document, MACHINES.Base());
      if errs != [] then errs else StoragePathRules(pf, pointer, document, PROVISIONERS.Base())
  }

  function StorageRules(pf: Platform, pointer: string, value: Json, document: Fields): seq<Problem> {
    var errs := StoragePathRules(pf, pointer, document, TEMPLATES.Base());
    if errs != [] then errs
    else if HasPrefix(pointer, ARTIFACT_PATHS) && HasSuffix(pointer, PATH) && value.Str?
        && !pf.isAbs(value.text) then
      [Problem(pointer, "pattern")]
    else []
  }

  /** codeRules: the writable hook of the configuration files. */
  function CodeRules(pf: Platform, pointer: string, value: Json, name: string, document: Fields): seq<Problem> {
    match name
    case "app" => AppRules(pf, pointer, value)
    case "auth" => AuthRules(pf, pointer, value, document)
    case "machines" => MachinesRules(pf, pointer, value, document)
    case "storage" => StorageRules(pf, pointer, value, document)
    case _ => []
  }

  // ----- What the rule decides at a leaf of one entry -----

  predicate SafeKey(key: string) {
    '/' !in key && '~' !in key
  }

  predicate KnownKind(kind: Kind) {
    kind == MACHINES || kind == PROVISIONERS || kind == TEMPLATES
  }

  function LeafPath(kind: Kind, id: string, field: string): seq<string> {
    [kind.section, kind.key, id, field]
  }

  function FieldAt(document: Fields, kind: Kind, id: string, field: string): Json {
    ValueAt(Obj(document), LeafPath(kind, id, field))
  }

  /** A kind whose section and key need no escaping. */
  predicate SafeKind(kind: Kind) {
    SafeKey(kind.section) && SafeKey(kind.key)
  }

  /** Passing the hook means passing the storage rule of the kind. */
  ghost predicate Covers(pf: Platform, hook: Hook, kind: Kind) {
    forall pointer, value, document :: hook(pointer, value, kind.file, document) == [] ==>
      StoragePathRules(pf, pointer, document, kind.Base()) == []
  }

  ghost predicate IsCodeRules(pf: Platform, hook: Hook) {
    forall pointer, value, name, document ::
        hook(pointer, value, name, document) == CodeRules(pf, pointer, value, name, document)
  }

  lemma CodeRulesCover(pf: Platform, hook: Hook, kind: Kind)
    requires IsCodeRules(pf, hook) && KnownKind(kind)
    ensures Covers(pf, hook, kind)
  {
    forall pointer, value, document | hook(pointer, value, kind.file, document) == []
      ensures StoragePathRules(pf, pointer, document, kind.Base()) == []
    {
      assert CodeRules(pf, pointer, value, kind.file, document) == [];
    }
  }

  lemma KindsAreSafe(kind: Kind)
    requires KnownKind(kind)
    ensures SafeKind(kind)
  {
    SafeLiterals();
  }

  lemma {:induction false} SafeText(s: string)
    requires forall i :: 0 <= i < |s| ==> s[i] != '/' && s[i] != '~'
    ensures SafeKey(s)
  {
  }

  lemma SafeLiterals()
    ensures SafeKey("provisioning") && SafeKey("machines_paths") && SafeKey("provisioners_paths")
    ensures SafeKey("template_sources") && SafeKey("storage_paths")
  {
    SafeText("provisioning");
    SafeText("machines_paths");
    SafeText("provisioners_paths");
    SafeText("template_sources");
    SafeText("storage_paths");
  }

  lemma EntriesOfKind(document: Fields, kind: Kind)
    requires SafeKind(kind)
    ensures EntriesAt(document, kind.Base()) == FieldsOf(ValueAt(Obj(document), [kind.section, kind.key]))
  {
    var text := kind.section + ['/'] + kind.key;
    assert TrimPrefix(kind.Base(), "/") == text;
    SplitWhole(kind.section, '/');
    SplitAppend(kind.section, '/', kind.key);
    assert [kind.section] + [kind.key] == [kind.section, kind.key];
  }

  lemma EntryField(document: Fields, kind: Kind, id: string, field: string)
    ensures FieldAt(document, kind, id, field)
            == Get(EntryOf(FieldsOf(ValueAt(Obj(document), [kind.section, kind.key])), id), field)
  {
    var node := ValueAt(Obj(document), [kind.section, kind.key]);
    assert LeafPath(kind, id, field) == [kind.section, kind.key] + [id, field];
    ValueAtConcat(Obj(document), [kind.section, kind.key], [id, field]);
    assert [id, field][1..] == [field] && [field][1..] == [];
    NullBelow([field]);
    if node.Obj? {
      assert ValueAt(node, [id, field]) == ValueAt(Get(node.fields, id), [field]);
      assert Get(node.fields, id).Obj? ==>
          ValueAt(Get(node.fields, id), [field]) == ValueAt(Get(Get(node.fields, id).fields, field), []);
    }
  }

  /** The pointer of an entry's leaf: the rule reads the escaped id out of it. */
  lemma LeafPointer(kind: Kind, id: string, field: string)
    requires SafeKind(kind) && SafeKey(field)
    ensures var pointer := Extend("", LeafPath(kind, id, field));
            && HasPrefix(pointer, kind.Base() + "/")
            && CutBefore(TrimPrefix(pointer, kind.Base() + "/"), '/') == Escape(id)
            && CutAfter(TrimPrefix(pointer, kind.Base() + "/"), '/') == field
  {
    EscapeSafe(kind.section);
    EscapeSafe(kind.key);
    EscapeSafe(field);
    var pointer := Extend("", LeafPath(kind, id, field));
    var p := LeafPath(kind, id, field);
    assert p[1..] == [kind.key, id, field] && p[1..][1..] == [id, field] && p[1..][1..][1..] == [field];
    var rest := Escape(id) + ['/'] + field;
    assert "" + "/" + kind.section == "/" + kind.section;
    assert Extend("", p) == Extend("/" + kind.section, p[1..]);
    assert Extend("/" + kind.section, p[1..]) == Extend(kind.Base(), p[1..][1..]);
    assert Extend(kind.Base(), [id, field]) == Extend(kind.Base() + "/" + Escape(id), [field]);
    assert Extend(kind.Base() + "/" + Escape(id), [field]) == kind.Base() + "/" + Escape(id) + "/" + field;
    assert pointer == kind.Base() + "/" + rest;
    assert TrimPrefix(pointer, kind.Base() + "/") == rest;
    EscapeHasNoSlash(id);
    CutAppend(Escape(id), '/', field);
  }

  /** Exactly when the rule refuses an entry's default: it looks the entry up under its escaped id. */
  lemma DefaultRuleExact(pf: Platform, document: Fields, kind: Kind, id: string)
    requires SafeKind(kind)
    ensures StoragePathRules(pf, Extend("", LeafPath(kind, id, "default")), document, kind.Base()) != [] <==>
            Escape(id) == BUILTIN
            || (FieldAt(document, kind, Escape(id), "default") == Bool(true)
                && exists other :: other != Escape(id) && FieldAt(document, kind, other, "default") == Bool(true))
  {
    LeafPointer(kind, id, "default");
    EntriesOfKind(document, kind);
    EntryField(document, kind, Escape(id), "default");
    var entries := EntriesAt(document, kind.Base());
    forall other ensures FieldAt(document, kind, other, "default") == Bool(true) <==>
        other in entries && FlagOf(Get(EntryOf(entries, other), "default")) {
      EntryField(document, kind, other, "default");
    }
  }

  /**
   * Exactly when the rule lets an entry's path pass: an absolute path that no other entry has, one without a path, or
   * with one that is no string, counting as "".
   */
  lemma PathRuleExact(pf: Platform, document: Fields, kind: Kind, id: string, path: string)
    requires SafeKind(kind)
    requires TextOf(FieldAt(document, kind, Escape(id), "path")) == path
    ensures StoragePathRules(pf, Extend("", LeafPath(kind, id, "path")), document, kind.Base()) == [] <==>
            Escape(id) != BUILTIN && pf.isAbs(path)
            && forall other :: other != Escape(id) && other in EntriesIn(document, kind) ==>
                 !SamePath(pf, TextOf(FieldAt(document, kind, other, "path")), path)
  {
    LeafPointer(kind, id, "path");
    EntriesOfKind(document, kind);
    forall other ensures FieldAt(document, kind, other, "path") ==
        Get(EntryOf(EntriesAt(document, kind.Base()), other), "path") {
      EntryField(document, kind, other, "path");
    }
  }

  // ----- Checking the leaves of a patch is enough -----

  predicate BothDefault(document: Fields, kind: Kind, i: string, j: string) {
    FieldAt(document, kind, i, "default") == Bool(true) && FieldAt(document, kind, j, "default") == Bool(true)
  }

  predicate SameFolder(pf: Platform, document: Fields, kind: Kind, i: string, j: string) {
    var p, q := FieldAt(document, kind, i, "path"), FieldAt(document, kind, j, "path");
    p.Str? && q.Str? && SamePath(pf, p.text, q.text)
  }

  /** No two entries are both the default, and no two name the same folder. */
  ghost predicate Unique(pf: Platform, document: Fields, kind: Kind) {
    forall i, j :: i != j ==> !BothDefault(document, kind, i, j) && !SameFolder(pf, document, kind, i, j)
  }

  /** The entries of the kind. */
  function EntriesIn(document: Fields, kind: Kind): Fields {
    FieldsOf(ValueAt(Obj(document), [kind.section, kind.key]))
  }

  /** Every entry's id is free of the pointer's special characters. */
  ghost predicate SafeIds(document: Fields, kind: Kind) {
    forall id :: id in EntriesIn(document, kind) ==> SafeKey(id)
  }

  /** What the item schema's "required" and the type of "path" ask of every entry. */
  predicate PathsGiven(document: Fields, kind: Kind) {
    forall id :: id in EntriesIn(document, kind) ==> FieldAt(document, kind, id, "path").Str?
  }

  /** The schema has the map where the kind says: in a section, with no default entries. */
  predicate HasKind(schema: Schema, kind: Kind) {
    kind.section in schema.Children() &&
    var section := schema.Children()[kind.section];
    section.Nested() && kind.key in section.Children() &&
    var storage := section.Children()[kind.key];
    !storage.Nested() && (storage.preset.Some? ==> FieldsOf(storage.preset.value) == map[])
  }

  /** Filling defaults changes nothing inside the map. */
  lemma FillKeepsEntries(schema: Schema, config: Fields, kind: Kind, rest: seq<string>)
    requires HasKind(schema, kind) && rest != []
    ensures ValueAt(Obj(Filled(schema, config)), [kind.section, kind.key] + rest)
            == ValueAt(Obj(config), [kind.section, kind.key] + rest)
  {
    var section := schema.Children()[kind.section];
    var inner := FieldsOf(Get(config, kind.section));
    var path := [kind.section, kind.key] + rest;
    assert path[1..] == [kind.key] + rest && path[1..][1..] == rest;
    FilledLook(schema, config, kind.section);
    FilledLook(section, inner, kind.key);
    FilledLook(section, map[], kind.key);
    TwoSteps(Obj(config), kind.section, kind.key, rest);
    TwoSteps(Obj(Filled(schema, config)), kind.section, kind.key, rest);
    NullBelow(rest);
    NullBelow(rest[1..]);
  }

  lemma TwoSteps(node: Json, first: string, second: string, rest: seq<string>)
    ensures ValueAt(node, [first, second] + rest) == ValueAt(Get(FieldsOf(Get(FieldsOf(node), first)), second), rest)
  {
    var path := [first, second] + rest;
    assert path[1..] == [second] + rest && path[1..][1..] == rest;
    NullBelow(path[1..]);
    NullBelow(rest);
  }

  lemma PassesStorageRule(pf: Platform, hook: Hook, kind: Kind, document: Fields, scope: Fields, id: string,
      field: string)
    requires Covers(pf, hook, kind) && SafeKind(kind)
    requires Passes(hook, kind.file, document, scope)
    requires LeafAt(Obj(scope), LeafPath(kind, id, field)).Some?
        && !LeafAt(Obj(scope), LeafPath(kind, id, field)).value.Null?
    ensures StoragePathRules(pf, Extend("", LeafPath(kind, id, field)), document, kind.Base()) == []
  {
    var pointer, value := Extend("", LeafPath(kind, id, field)), FieldAt(document, kind, id, field);
    assert hook(pointer, value, kind.file, document) == [];
  }

  /** An entry whose default was checked is the only default. */
  lemma CheckedDefaultIsUnique(pf: Platform, hook: Hook, kind: Kind, document: Fields, scope: Fields, id: string,
      other: string)
    requires Covers(pf, hook, kind) && SafeKind(kind) && SafeKey(id) && other != id
    requires Passes(hook, kind.file, document, scope)
    requires LeafAt(Obj(scope), LeafPath(kind, id, "default")) == Some(Bool(true))
    ensures !BothDefault(document, kind, id, other)
  {
    EscapeSafe(id);
    PassesStorageRule(pf, hook, kind, document, scope, id, "default");
    DefaultRuleExact(pf, document, kind, id);
  }

  /** An entry whose path was checked shares its folder with no other entry. */
  lemma CheckedPathIsUnique(pf: Platform, hook: Hook, kind: Kind, document: Fields, scope: Fields, id: string,
      other: string)
    requires Covers(pf, hook, kind) && SafeKind(kind) && SafeKey(id) && other != id
    requires Passes(hook, kind.file, document, scope)
    requires LeafAt(Obj(scope), LeafPath(kind, id, "path")).Some?
        && !LeafAt(Obj(scope), LeafPath(kind, id, "path")).value.Null?
    ensures !SameFolder(pf, document, kind, id, other)
  {
    EscapeSafe(id);
    PassesStorageRule(pf, hook, kind, document, scope, id, "path");
    if FieldAt(document, kind, id, "path").Str? {
      PathRuleExact(pf, document, kind, id, FieldAt(document, kind, id, "path").text);
      EntryField(document, kind, other, "path");
    }
  }

  lemma FieldInEntries(document: Fields, kind: Kind, id: string, field: string)
    requires !FieldAt(document, kind, id, field).Null?
    ensures id in EntriesIn(document, kind)
  {
    EntryField(document, kind, id, field);
  }

  // ----- Ids that need escaping -----

  lemma EscapedIsUnsafe(id: string)
    requires !SafeKey(id)
    ensures !SafeKey(Escape(id)) && |Escape(id)| > |id|
  {
    EscapeLonger(id);
    if SafeKey(Escape(id)) {
      EscapeSafe(Escape(id));
      UnescapeEscape(id);
      UnescapeEscape(Escape(id));
    }
  }

  /** The rule reads the entry under its escaped id, and finds a path only where there is an entry. */
  lemma CheckedPathNamesEntry(pf: Platform, hook: Hook, kind: Kind, document: Fields, scope: Fields, id: string)
    requires Covers(pf, hook, kind) && SafeKind(kind) && !pf.isAbs("")
    requires Passes(hook, kind.file, document, scope)
    requires LeafAt(Obj(scope), LeafPath(kind, id, "path")).Some?
    requires !LeafAt(Obj(scope), LeafPath(kind, id, "path")).value.Null?
    ensures Escape(id) in EntriesIn(document, kind)
  {
    PassesStorageRule(pf, hook, kind, document, scope, id, "path");
    LeafPointer(kind, id, "path");
    EntriesOfKind(document, kind);
  }

  lemma {:induction false} Longest(ids: set<string>) returns (longest: string)
    requires ids != {}
    ensures longest in ids && forall id :: id in ids ==> |id| <= |longest|
  {
    longest :| longest in ids;
    if ids != {longest} {
      assert ids - {longest} != {};
      var other := Longest(ids - {longest});
      if |other| > |longest| { longest := other; }
    }
  }

  /** No finite map has an unsafe id whose escaped form is again an id. */
  lemma UnsafeIdsHaveNoEnd(entries: Fields)
    requires forall id :: id in entries && !SafeKey(id) ==> Escape(id) in entries
    ensures forall id :: id in entries ==> SafeKey(id)
  {
    var unsafe := set id | id in entries && !SafeKey(id);
    forall id | id in unsafe ensures Escape(id) in unsafe && |Escape(id)| > |id| {
      EscapedIsUnsafe(id);
    }
    if id :| id in entries && !SafeKey(id) {
      assert id in unsafe;
      var longest := Longest(unsafe);
    }
  }

  /** A document whose own leaves were all checked, as a load and a restore do, has safe ids and unique entries. */
  lemma WholeCheckGivesUnique(pf: Platform, hook: Hook, kind: Kind, document: Fields)
    requires Covers(pf, hook, kind) && SafeKind(kind) && !pf.isAbs("")
    requires Passes(hook, kind.file, document, document) && PathsGiven(document, kind)
    ensures SafeIds(document, kind) && Unique(pf, document, kind)
  {
    forall id | id in EntriesIn(document, kind) ensures Escape(id) in EntriesIn(document, kind) {
      LeafIsValue(Obj(document), LeafPath(kind, id, "path"));
      CheckedPathNamesEntry(pf, hook, kind, document, document, id);
    }
    UnsafeIdsHaveNoEnd(EntriesIn(document, kind));
    forall i, j | i != j
      ensures !BothDefault(document, kind, i, j) && !SameFolder(pf, document, kind, i, j)
    {
      if BothDefault(document, kind, i, j) {
        LeafIsValue(Obj(document), LeafPath(kind, i, "default"));
        FieldInEntries(document, kind, i, "default");
        CheckedDefaultIsUnique(pf, hook, kind, document, document, i, j);
      }
      if SameFolder(pf, document, kind, i, j) {
        LeafIsValue(Obj(document), LeafPath(kind, i, "path"));
        FieldInEntries(document, kind, i, "path");
        CheckedPathIsUnique(pf, hook, kind, document, document, i, j);
      }
    }
  }

  /** What a save must have checked: an entry's field that is new in the merged document is a leaf of the patch. */
  lemma ChangedFieldWasSent(schema: Schema, raw: Fields, body: Fields, kind: Kind, id: string, field: string)
    requires HasKind(schema, kind)
    requires var after := FieldAt(Filled(schema, MergedFields(raw, body)), kind, id, field);
             Plain(after) && after != FieldAt(Filled(schema, raw), kind, id, field)
    ensures LeafAt(Obj(body), LeafPath(kind, id, field)) == Some(FieldAt(Filled(schema, MergedFields(raw, body)),
        kind, id, field))
  {
    var path := LeafPath(kind, id, field);
    assert path == [kind.section, kind.key] + [id, field];
    FillKeepsEntries(schema, raw, kind, [id, field]);
    FillKeepsEntries(schema, MergedFields(raw, body), kind, [id, field]);
    ChangedValueIsPatchLeaf(Obj(raw), Obj(body), path);
  }

  /** A save that checked only its own leaves brings in no unsafe id. */
  lemma IncrementalCheckKeepsSafeIds(pf: Platform, hook: Hook, kind: Kind, schema: Schema, raw: Fields, body: Fields)
    requires Covers(pf, hook, kind) && SafeKind(kind) && HasKind(schema, kind) && !pf.isAbs("")
    requires SafeIds(Filled(schema, raw), kind) && PathsGiven(Filled(schema, MergedFields(raw, body)), kind)
    requires Passes(hook, kind.file, Filled(schema, MergedFields(raw, body)), body)
    ensures SafeIds(Filled(schema, MergedFields(raw, body)), kind)
  {
    var before, after := Filled(schema, raw), Filled(schema, MergedFields(raw, body));
    forall id | id in EntriesIn(after, kind) && !SafeKey(id) ensures Escape(id) in EntriesIn(after, kind) {
      if !FieldAt(before, kind, id, "path").Null? {
        FieldInEntries(before, kind, id, "path");
      }
      ChangedFieldWasSent(schema, raw, body, kind, id, "path");
      CheckedPathNamesEntry(pf, hook, kind, after, body, id);
    }
    UnsafeIdsHaveNoEnd(EntriesIn(after, kind));
  }

  /**
   * Incremental validation: when the effective document had safe ids and unique entries, a save whose rules ran only on
   * the leaves of the patch leaves safe ids and unique entries.
   */
  lemma IncrementalCheckKeepsUnique(pf: Platform, hook: Hook, kind: Kind, schema: Schema, raw: Fields, body: Fields)
    requires Covers(pf, hook, kind) && SafeKind(kind) && HasKind(schema, kind) && !pf.isAbs("")
    requires SafeIds(Filled(schema, raw), kind) && Unique(pf, Filled(schema, raw), kind)
    requires PathsGiven(Filled(schema, MergedFields(raw, body)), kind)
    requires Passes(hook, kind.file, Filled(schema, MergedFields(raw, body)), body)
    ensures SafeIds(Filled(schema, MergedFields(raw, body)), kind)
    ensures Unique(pf, Filled(schema, MergedFields(raw, body)), kind)
  {
    var before, after := Filled(schema, raw), Filled(schema, MergedFields(raw, body));
    IncrementalCheckKeepsSafeIds(pf, hook, kind, schema, raw, body);
    forall i, j | i != j ensures !BothDefault(after, kind, i, j) && !SameFolder(pf, after, kind, i, j) {
      assert !BothDefault(before, kind, i, j) && !SameFolder(pf, before, kind, i, j);
      if BothDefault(after, kind, i, j) || SameFolder(pf, after, kind, i, j) {
        NewcomerClashes(pf, hook, kind, schema, raw, body, i, j);
        NewcomerClashes(pf, hook, kind, schema, raw, body, j, i);
      }
    }
  }

  /** An entry whose field the save changed has been checked against every other entry. */
  lemma NewcomerClashes(pf: Platform, hook: Hook, kind: Kind, schema: Schema, raw: Fields, body: Fields, id: string,
      other: string)
    requires Covers(pf, hook, kind) && SafeKind(kind) && HasKind(schema, kind)
    requires SafeIds(Filled(schema, MergedFields(raw, body)), kind) && other != id
    requires Passes(hook, kind.file, Filled(schema, MergedFields(raw, body)), body)
    ensures var before, after := Filled(schema, raw), Filled(schema, MergedFields(raw, body));
            && (FieldAt(before, kind, id, "default") != Bool(true) ==> !BothDefault(after, kind, id, other))
            && (FieldAt(before, kind, id, "path") != FieldAt(after, kind, id, "path") ==>
                !SameFolder(pf, after, kind, id, other))
  {
    var before, after := Filled(schema, raw), Filled(schema, MergedFields(raw, body));
    if FieldAt(before, kind, id, "default") != Bool(true) && FieldAt(after, kind, id, "default") == Bool(true) {
      ChangedFieldWasSent(schema, raw, body, kind, id, "default");
      FieldInEntries(after, kind, id, "default");
      CheckedDefaultIsUnique(pf, hook, kind, after, body, id, other);
    }
    if FieldAt(before, kind, id, "path") != FieldAt(after, kind, id, "path") && FieldAt(after, kind, id, "path").Str? {
      ChangedFieldWasSent(schema, raw, body, kind, id, "path");
      FieldInEntries(after, kind, id, "path");
      CheckedPathIsUnique(pf, hook, kind, after, body, id, other);
    }
  }
}
