/** Section saves: a patch completed with nulls for the map entries it omits (internal/configengine/save.go). */
module Deletions {
  import opened GoStrings
  import opened Json
  import opened MergePatch
  import opened ReadOnly
  import opened Schema

  /** The patch of one property completed against the stored value. */
  function Completed(property: Schema, raw: Fields, patch: Fields): Fields
    decreases property
  {
    if property.IsMap() then map key | key in patch.Keys + raw.Keys :: Get(patch, key)
    else map key | key in patch :: CompletedAt(property, raw, patch, key)
  }

  function CompletedAt(property: Schema, raw: Fields, patch: Fields, key: string): Json
    requires key in patch
    decreases property, 0
  {
    if key in property.Children() && patch[key].Obj? then
      Obj(Completed(property.Children()[key], FieldsOf(Get(raw, key)), patch[key].fields))
    else patch[key]
  }

  lemma CompletedFromLook(property: Schema, raw: Fields, patch: Fields, out: Fields)
    requires !property.IsMap()
    requires forall key :: Look(out, key) == if key in patch then Some(CompletedAt(property, raw, patch, key)) else None
    ensures out == Completed(property, raw, patch)
  {
    FieldsEqual(out, Completed(property, raw, patch));
  }

  /** The map case of withMapDeletions: a null for every stored entry the patch omits. */
  method NullOmitted(raw: Fields, patch: Fields) returns (out: Fields)
    ensures forall key :: Look(out, key) == if key in patch || key in raw then Some(Get(patch, key)) else None
  {
    out := patch;
    var todo := raw.Keys;
    while todo != {}
      invariant todo <= raw.Keys
      invariant forall key :: Look(out, key) == if key in patch || (key in raw && key !in todo) then
          Some(Get(patch, key)) else None
      decreases |todo|
    {
      var key :| key in todo;
      todo := todo - {key};
      assert key in out <==> key in patch by { assert Look(out, key).Some? <==> key in patch; }
      if key !in out {
        out := out[key := Null];
      }
    }
  }

  /** withMapDeletions: writes the nulls into the patch it was handed. */
  method CompletePatch(property: Schema, raw: Fields, patch: Fields) returns (out: Fields)
    ensures out == Completed(property, raw, patch)
    decreases property
  {
    if property.IsMap() {
      out := NullOmitted(raw, patch);
      FieldsEqual(out, Completed(property, raw, patch));
      return;
    }
    out := patch;
    var todo := property.Children().Keys;
    while todo != {}
      invariant todo <= property.Children().Keys
      invariant forall key :: Look(out, key) ==
                              if key in todo || key !in patch then Look(patch, key)
                              else Some(CompletedAt(property, raw, patch, key))
      decreases |todo|
    {
      var key :| key in todo;
      assert Look(out, key) == Look(patch, key);
      todo := todo - {key};
      if key in out && out[key].Obj? {
        var child := CompletePatch(property.Children()[key], FieldsOf(Get(raw, key)), out[key].fields);
        out := out[key := Obj(child)];
      }
    }
    CompletedFromLook(property, raw, patch, out);
  }

  /** A section: the body's own top-level keys, each completed below the schema's property of that name. */
  function WithDeletions(schema: Schema, raw: Fields, body: Fields): Fields {
    map key | key in body :: CompletedAt(schema, raw, body, key)
  }

  /** WithDeletions: the loop over the body's keys, on a copy of the body. */
  method AddDeletions(schema: Schema, raw: Fields, body: Fields) returns (out: Fields)
    ensures out == WithDeletions(schema, raw, body)
  {
    out := body;
    var todo := body.Keys;
    while todo != {}
      invariant todo <= body.Keys
      invariant out.Keys == body.Keys
      invariant forall key :: key in body ==> out[key] == if key in todo then body[key]
          else CompletedAt(schema, raw, body, key)
      decreases |todo|
    {
      var key :| key in todo;
      todo := todo - {key};
      if key in schema.Children() && out[key].Obj? {
        var child := CompletePatch(schema.Children()[key], FieldsOf(Get(raw, key)), out[key].fields);
        out := out[key := Obj(child)];
      }
    }
  }

  // ----- A section save replaces maps exactly -----

  /** The first map schema met on the way down through properties lies at this path. */
  predicate MapBelow(property: Schema, path: seq<string>)
    decreases |path|
  {
    if path == [] then property.IsMap()
    else !property.IsMap() && path[0] in property.Children() && MapBelow(property.Children()[path[0]], path[1..])
  }

  /** The entries a body gives a map: those not null, each merged into the stored entry of that key. */
  function KeptEntries(stored: Fields, sent: Fields): Fields {
    map key | key in sent && !sent[key].Null? :: Merged(Get(stored, key), sent[key])
  }

  lemma {:induction false} MapReplaced(property: Schema, raw: Json, patch: Fields, path: seq<string>)
    requires MapBelow(property, path)
    requires ValueAt(Obj(patch), path).Obj?
    ensures ValueAt(Merged(raw, Obj(Completed(property, FieldsOf(raw), patch))), path)
            == Obj(KeptEntries(FieldsOf(ValueAt(raw, path)), ValueAt(Obj(patch), path).fields))
    decreases |path|
  {
    var done := Obj(Completed(property, FieldsOf(raw), patch));
    if path == [] {
      var kept := KeptEntries(FieldsOf(raw), patch);
      forall key ensures Look(Merged(raw, done).fields, key) == Look(kept, key) {
        MergedLook(raw, done, key);
      }
      FieldsEqual(Merged(raw, done).fields, kept);
    } else {
      var key, child := path[0], Get(FieldsOf(raw), path[0]);
      NullBelow(path[1..]);
      assert ValueAt(Obj(patch), path) == ValueAt(Get(patch, key), path[1..]);
      MergedValueAt(raw, done, path);
      MapReplaced(property.Children()[key], child, patch[key].fields, path[1..]);
      assert ValueAt(raw, path) == ValueAt(child, path[1..]);
    }
  }

  /**
   * After a section save every map reached through properties holds exactly the keys the body gives a value other than
   * null; a stored entry of such a key is merged with, not replaced. Sections the body does not name are unchanged.
   */
  lemma SectionSaveReplacesMaps(schema: Schema, raw: Fields, body: Fields, path: seq<string>)
    requires path != [] && path[0] in schema.Children() && MapBelow(schema.Children()[path[0]], path[1..])
    requires ValueAt(Obj(body), path).Obj?
    ensures ValueAt(Obj(MergedFields(raw, WithDeletions(schema, raw, body))), path)
            == Obj(KeptEntries(FieldsOf(ValueAt(Obj(raw), path)), ValueAt(Obj(body), path).fields))
    ensures forall key :: key !in body ==>
        Look(MergedFields(raw, WithDeletions(schema, raw, body)), key) == Look(raw, key)
  {
    var key, done := path[0], WithDeletions(schema, raw, body);
    NullBelow(path[1..]);
    MergedValueAt(Obj(raw), Obj(done), path);
    MapReplaced(schema.Children()[key], Get(raw, key), body[key].fields, path[1..]);
    forall other | other !in body ensures Look(MergedFields(raw, done), other) == Look(raw, other) {
      MergedLook(Obj(raw), Obj(done), other);
    }
  }

  // ----- A section save at every path -----

  /** The path runs through objects of the body into a map reached through properties, to an entry the body omits. */
  predicate OmittedEntry(property: Schema, body: Json, path: seq<string>)
    decreases |path|
  {
    path != [] && body.Obj? &&
    if property.IsMap() then path[0] !in body.fields
    else
      path[0] in property.Children() && path[0] in body.fields
      && OmittedEntry(property.Children()[path[0]], body.fields[path[0]], path[1..])
  }

  /** The section a body names, and inside it an omitted entry of a map. */
  predicate OmittedBelow(schema: Schema, body: Fields, path: seq<string>) {
    path != [] && path[0] in schema.Children() && path[0] in body
    && OmittedEntry(schema.Children()[path[0]], body[path[0]], path[1..])
  }

  /** How a document reads after a section save, given only the schema, the stored document and the body. */
  ghost predicate ReadsSavedAt(omitted: bool, raw: Json, body: Json, saved: Json, path: seq<string>) {
    if omitted then ValueAt(saved, path) == Null else ReadsMergedAt(raw, body, saved, path)
  }

  lemma {:induction false} CompletedReads(property: Schema, raw: Json, patch: Fields, path: seq<string>)
    ensures ReadsSavedAt(OmittedEntry(property, Obj(patch), path), raw, Obj(patch),
                Merged(raw, Obj(Completed(property, FieldsOf(raw), patch))), path)
    decreases |path|
  {
    var done := Obj(Completed(property, FieldsOf(raw), patch));
    if path != [] {
      var key, child := path[0], Get(FieldsOf(raw), path[0]);
      MergedValueAt(raw, done, path);
      NullBelow(path[1..]);
      assert ValueAt(raw, path) == ValueAt(child, path[1..]);
      if key in patch {
        MergedReadsExactly(child, patch[key], path[1..]);
        if !property.IsMap() && key in property.Children() && patch[key].Obj? {
          CompletedReads(property.Children()[key], child, patch[key].fields, path[1..]);
        } else {
          assert !OmittedEntry(property, Obj(patch), path);
        }
      }
    }
  }

  /**
   * A section save at every path: an entry that the body omits from a map reached through properties is gone, and
   * every other path reads as after a plain merge of the body: plain values as sent, unsent paths as stored.
   */
  lemma SectionSaveReads(schema: Schema, raw: Fields, body: Fields, path: seq<string>)
    ensures ReadsSavedAt(OmittedBelow(schema, body, path), Obj(raw), Obj(body),
                Obj(MergedFields(raw, WithDeletions(schema, raw, body))), path)
  {
    var done := Obj(WithDeletions(schema, raw, body));
    if path != [] {
      var key := path[0];
      MergedValueAt(Obj(raw), done, path);
      NullBelow(path[1..]);
      if key in body {
        MergedReadsExactly(Get(raw, key), body[key], path[1..]);
        if key in schema.Children() && body[key].Obj? {
          CompletedReads(schema.Children()[key], Get(raw, key), body[key].fields, path[1..]);
        }
      }
    }
  }

  lemma {:induction false} OmittedIsUnsent(property: Schema, body: Json, path: seq<string>)
    requires OmittedEntry(property, body, path)
    ensures ObjectsAlong(body, path)
    decreases |path|
  {
    if path[0] in body.fields {
      OmittedIsUnsent(property.Children()[path[0]], body.fields[path[0]], path[1..]);
    }
  }

  /** So every plain value of the body is stored, and of the unsent paths exactly the omitted map entries are lost. */
  lemma SectionSaveKeepsTheRest(schema: Schema, raw: Fields, body: Fields, path: seq<string>)
    ensures var saved := Obj(MergedFields(raw, WithDeletions(schema, raw, body)));
            && (Plain(ValueAt(Obj(body), path)) ==> ValueAt(saved, path) == ValueAt(Obj(body), path))
            && (ObjectsAlong(Obj(body), path) ==>
                  ValueAt(saved, path) == if OmittedBelow(schema, body, path) then Null else ValueAt(Obj(raw), path))
  {
    SectionSaveReads(schema, raw, body, path);
    if OmittedBelow(schema, body, path) {
      OmittedIsUnsent(schema.Children()[path[0]], body[path[0]], path[1..]);
    }
    if ObjectsAlong(Obj(body), path) {
      UnsentReadsNull(Obj(body), path);
    }
  }
}
