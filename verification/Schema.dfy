/** Schema nodes and the schema-filled document (internal/configengine/tree.go). */
module Schema {
  import opened GoStrings
  import opened Json
  import opened MergePatch

  /** The node's "properties", or that it has none; children that are no schema node are absent. */
  datatype Properties = NoProperties | Properties(children: map<string, Schema>)

  /** The node's "additionalProperties" when that is a schema. */
  datatype Entries = NoEntries | Entries(item: Schema)

  datatype Schema = Schema(
    properties: Properties,
    entries: Entries,
    preset: Option<Json>,
    requiresRestart: bool,
    readOnly: bool,
    title: string,
    reason: string)
  {
    predicate Nested() { properties.Properties? }

    predicate IsMap() { entries.Entries? }

    /** propertiesOf */
    function Children(): map<string, Schema> {
      if properties.Properties? then properties.children else map[]
    }
  }

  /** The nil schema of a name that was never read. */
  const EMPTY := Schema(NoProperties, NoEntries, None, false, false, "", "")

  /** hasDefaults */
  predicate HasDefaults(schema: Schema) {
    schema.Nested() && exists key :: key in schema.properties.children &&
                                     (schema.properties.children[key].preset.Some?
                                         || HasDefaults(schema.properties.children[key]))
  }

  /** Whether filling adds an absent key of this schema. */
  predicate AddsWhenAbsent(child: Schema) {
    if child.Nested() then HasDefaults(child) else child.preset.Some?
  }

  function FilledKeys(schema: Schema, config: Fields): set<string> {
    config.Keys + set key | key in schema.Children() && AddsWhenAbsent(schema.Children()[key])
  }

  /** The document with every default filled in. */
  function Filled(schema: Schema, config: Fields): Fields
    decreases schema
  {
    map key | key in FilledKeys(schema, config) ::
      if key in schema.Children() && schema.Children()[key].Nested() then
        Obj(Filled(schema.Children()[key], FieldsOf(Get(config, key))))
      else if key in config then config[key]
      else schema.Children()[key].preset.value
  }

  /** What the filled document holds under one key. */
  function FilledKey(schema: Schema, config: Fields, key: string): Option<Json> {
    if key !in schema.Children() then Look(config, key)
    else var child := schema.Children()[key];
      if child.Nested() then
        if key in config || HasDefaults(child) then Some(Obj(Filled(child, FieldsOf(Get(config, key))))) else None
      else if key in config then Some(config[key])
      else child.preset
  }

  lemma FilledLook(schema: Schema, config: Fields, key: string)
    ensures Look(Filled(schema, config), key) == FilledKey(schema, config, key)
  {
  }

  /** hasDefaults: Go's loop over the children. */
  method FindDefaults(schema: Schema) returns (found: bool)
    ensures found == HasDefaults(schema)
    decreases schema
  {
    var todo := schema.Children().Keys;
    while todo != {}
      invariant todo <= schema.Children().Keys
      invariant forall key :: key in schema.Children().Keys - todo ==>
        !schema.Children()[key].preset.Some? && !HasDefaults(schema.Children()[key])
      decreases |todo|
    {
      var key :| key in todo;
      todo := todo - {key};
      var child := schema.Children()[key];
      if child.preset.Some? {
        return true;
      }
      if child.Nested() {
        var deeper := FindDefaults(child);
        if deeper {
          return true;
        }
      }
    }
    return false;
  }

  /** fillDefaults: Go's loop over the schema's properties, in any order. */
  method FillDefaults(schema: Schema, config: Fields) returns (filled: Fields)
    ensures filled == Filled(schema, config)
    decreases schema
  {
    filled := config;
    var todo := schema.Children().Keys;
    while todo != {}
      invariant todo <= schema.Children().Keys
      invariant forall key :: Look(filled, key) ==
                              if key in todo then Look(config, key) else FilledKey(schema, config, key)
      decreases |todo|
    {
      var key :| key in todo;
      assert Look(filled, key) == Look(config, key);
      todo := todo - {key};
      var child := schema.Children()[key];
      var defaults := FindDefaults(child);
      if child.Nested() {
        if key in filled || defaults {
          var section := FillDefaults(child, FieldsOf(Get(filled, key)));
          filled := filled[key := Obj(section)];
        }
      } else if key !in filled && child.preset.Some? {
        filled := filled[key := child.preset.value];
      }
    }
    forall key ensures Look(filled, key) == Look(Filled(schema, config), key) {
      FilledLook(schema, config, key);
    }
    FieldsEqual(filled, Filled(schema, config));
  }

  /** Filling a filled document changes nothing. */
  lemma {:induction false} FillIdempotent(schema: Schema, config: Fields)
    ensures Filled(schema, Filled(schema, config)) == Filled(schema, config)
    decreases schema
  {
    var once := Filled(schema, config);
    forall key ensures Look(Filled(schema, once), key) == Look(once, key) {
      FilledLook(schema, config, key);
      FilledLook(schema, once, key);
      if key in schema.Children() && schema.Children()[key].Nested() {
        FillIdempotent(schema.Children()[key], FieldsOf(Get(config, key)));
      }
    }
    FieldsEqual(Filled(schema, once), once);
  }

  /** Whether a path of keys names a section: nested properties all the way. */
  predicate IsSection(schema: Schema, path: seq<string>)
    decreases schema
  {
    path != [] && path[0] in schema.Children() && schema.Children()[path[0]].Nested()
    && (|path| == 1 || IsSection(schema.Children()[path[0]], path[1..]))
  }

  /** Filling keeps every plain value of its input, except one that stands where the schema has a section. */
  lemma {:induction false} FillKeepsValues(schema: Schema, config: Fields, path: seq<string>)
    requires path != [] && Plain(ValueAt(Obj(config), path))
    ensures if IsSection(schema, path) then ValueAt(Obj(Filled(schema, config)), path).Obj?
            else ValueAt(Obj(Filled(schema, config)), path) == ValueAt(Obj(config), path)
    decreases schema
  {
    var key := path[0];
    FilledLook(schema, config, key);
    NullBelow(path[1..]);
    if key in schema.Children() && schema.Children()[key].Nested() && |path| > 1 {
      assert ValueAt(Obj(config), path) == ValueAt(Get(config, key), path[1..]);
      assert Obj(FieldsOf(Get(config, key))) == Get(config, key);
      FillKeepsValues(schema.Children()[key], FieldsOf(Get(config, key)), path[1..]);
    }
  }

  /** No section of the schema carries a default of its own. */
  predicate SectionsWithoutPreset(schema: Schema) {
    schema.Nested() ==> forall key :: key in schema.properties.children ==>
      var child := schema.properties.children[key];
      (child.Nested() ==> child.preset.None?) && SectionsWithoutPreset(child)
  }

  /** hasDefaults holds whenever filling the empty object gives anything; the converse needs default-free sections. */
  lemma {:induction false} HasDefaultsExact(schema: Schema)
    ensures Filled(schema, map[]) != map[] ==> HasDefaults(schema)
    ensures SectionsWithoutPreset(schema) ==> (Filled(schema, map[]) != map[] <==> HasDefaults(schema))
    decreases schema
  {
    if Filled(schema, map[]) != map[] {
      var key :| key in Filled(schema, map[]);
      FilledLook(schema, map[], key);
    }
    if HasDefaults(schema) && SectionsWithoutPreset(schema) {
      var key :| key in schema.properties.children &&
        (schema.properties.children[key].preset.Some? || HasDefaults(schema.properties.children[key]));
      FilledLook(schema, map[], key);
      assert key in Filled(schema, map[]);
    }
  }

  // ----- Filling commutes with patching -----

  /** No leaf default is an object with members. */
  predicate PlainPresets(schema: Schema) {
    schema.Nested() ==> forall key :: key in schema.properties.children ==>
      var child := schema.properties.children[key];
      if child.Nested() then PlainPresets(child) else child.preset.Some? ==> FieldsOf(child.preset.value) == map[]
  }

  ghost predicate Commutes(schema: Schema, raw: Fields, patch: Fields) {
    Filled(schema, MergedFields(raw, patch)) == Filled(schema, MergedFields(Filled(schema, raw), patch))
  }

  /** Patching the stored document or the effective one gives the same effective document. */
  lemma {:induction false} FillCommutesWithPatch(schema: Schema, raw: Fields, patch: Fields)
    requires PlainPresets(schema)
    ensures Commutes(schema, raw, patch)
    decreases schema, 1
  {
    var left, right := MergedFields(raw, patch), MergedFields(Filled(schema, raw), patch);
    forall key ensures Look(Filled(schema, left), key) == Look(Filled(schema, right), key) {
      CommutesAtKey(schema, raw, patch, key);
      FilledLook(schema, left, key);
      FilledLook(schema, right, key);
    }
    FieldsEqual(Filled(schema, left), Filled(schema, right));
  }

  lemma {:induction false} CommutesAtKey(schema: Schema, raw: Fields, patch: Fields, key: string)
    requires PlainPresets(schema)
    ensures FilledKey(schema, MergedFields(raw, patch), key)
            == FilledKey(schema, MergedFields(Filled(schema, raw), patch), key)
    decreases schema, 0
  {
    var filled := Filled(schema, raw);
    MergedLook(Obj(raw), Obj(patch), key);
    MergedLook(Obj(filled), Obj(patch), key);
    FilledLook(schema, raw, key);
    if key in schema.Children() && schema.Children()[key].Nested() {
      var child := schema.Children()[key];
      if key !in patch {
        FillIdempotent(child, FieldsOf(Get(raw, key)));
      } else if patch[key].Obj? {
        MergedIntoFields(Get(raw, key), patch[key]);
        MergedIntoFields(Get(filled, key), patch[key]);
        FillCommutesWithPatch(child, FieldsOf(Get(raw, key)), patch[key].fields);
      }
    }
  }

  /** Every schema with an object default somewhere has a document and a patch that tell the two apart. */
  lemma {:induction false} FillCommutesNeedsPlainPresets(schema: Schema) returns (raw: Fields, patch: Fields)
    requires !PlainPresets(schema)
    ensures !Commutes(schema, raw, patch)
    decreases schema
  {
    var key :| key in schema.properties.children &&
      var child := schema.properties.children[key];
      if child.Nested() then !PlainPresets(child) else child.preset.Some? && FieldsOf(child.preset.value) != map[];
    var child := schema.properties.children[key];
    if child.Nested() {
      var r, p := FillCommutesNeedsPlainPresets(child);
      raw, patch := map[key := Obj(r)], map[key := Obj(p)];
      DiffersBelow(schema, key, r, p);
    } else {
      raw, patch := map[], map[key := Obj(map[])];
      DiffersAtPreset(schema, key);
    }
  }

  lemma DiffersBelow(schema: Schema, key: string, r: Fields, p: Fields)
    requires key in schema.Children() && schema.Children()[key].Nested() && !Commutes(schema.Children()[key], r, p)
    ensures !Commutes(schema, map[key := Obj(r)], map[key := Obj(p)])
  {
    var raw, patch := map[key := Obj(r)], map[key := Obj(p)];
    var filled := Filled(schema, raw);
    FilledLook(schema, raw, key);
    MergedIntoFields(Get(raw, key), patch[key]);
    MergedIntoFields(Get(filled, key), patch[key]);
    MergedLook(Obj(raw), Obj(patch), key);
    MergedLook(Obj(filled), Obj(patch), key);
    FilledLook(schema, MergedFields(raw, patch), key);
    FilledLook(schema, MergedFields(filled, patch), key);
  }

  lemma DiffersAtPreset(schema: Schema, key: string)
    requires key in schema.Children() && !schema.Children()[key].Nested()
    requires schema.Children()[key].preset.Some? && FieldsOf(schema.Children()[key].preset.value) != map[]
    ensures !Commutes(schema, map[], map[key := Obj(map[])])
  {
    var raw, patch: Fields := map[], map[key := Obj(map[])];
    var preset := schema.Children()[key].preset.value;
    var filled := Filled(schema, raw);
    FilledLook(schema, raw, key);
    MergeNothing(FieldsOf(preset));
    MergedIntoFields(preset, patch[key]);
    MergeNothing(map[]);
    MergedIntoFields(Null, patch[key]);
    MergedLook(Obj(raw), Obj(patch), key);
    MergedLook(Obj(filled), Obj(patch), key);
    FilledLook(schema, MergedFields(raw, patch), key);
    FilledLook(schema, MergedFields(filled, patch), key);
  }

  /** The two ways of applying a run of patches: to the stored document, and to the effective one. */
  function StoredAfter(raw: Fields, patches: seq<Fields>): Fields
    decreases |patches|
  {
    if patches == [] then raw else StoredAfter(MergedFields(raw, patches[0]), patches[1..])
  }

  function EffectiveAfter(schema: Schema, effective: Fields, patches: seq<Fields>): Fields
    decreases |patches|
  {
    if patches == [] then effective
    else EffectiveAfter(schema, Filled(schema, MergedFields(effective, patches[0])), patches[1..])
  }

  /** The effective document after any run of saves depends only on the effective document before it and the patches. */
  lemma {:induction false} EffectiveDocumentSuffices(schema: Schema, raw: Fields, patches: seq<Fields>)
    requires PlainPresets(schema)
    ensures Filled(schema, StoredAfter(raw, patches)) == EffectiveAfter(schema, Filled(schema, raw), patches)
    decreases |patches|
  {
    if patches != [] {
      FillCommutesWithPatch(schema, raw, patches[0]);
      EffectiveDocumentSuffices(schema, MergedFields(raw, patches[0]), patches[1..]);
    }
  }
}
