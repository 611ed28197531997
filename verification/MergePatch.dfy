/** JSON Merge Patch: internal/configengine/tree.go's mergePatch against section 2 of RFC 7396. */
module MergePatch {
  import opened GoStrings
  import opened Json

  /** The keys an object has after an object patch: its own and the patch's, less those patched with null. */
  function KeysAfter(target: Fields, patch: Fields): set<string> {
    target.Keys + patch.Keys - set key | key in patch && patch[key].Null?
  }

  /**
   * MergePatch(Target, Patch) of RFC 7396: a patch that is no object replaces the target; an object patch is applied
   * member by member, null removing the member, and a target that is no object counts as empty.
   */
  function Merged(target: Json, patch: Json): Json
    decreases patch
  {
    if patch.Obj? then
      Obj(map key | key in KeysAfter(FieldsOf(target), patch.fields) ::
          if key in patch.fields then Merged(Get(FieldsOf(target), key), patch.fields[key])
          else Get(FieldsOf(target), key))
    else patch
  }

  function MergedFields(target: Fields, patch: Fields): Fields {
    Merged(Obj(target), Obj(patch)).fields
  }

  /** What the merged object holds under one key. */
  function PatchedLook(target: Fields, patch: Fields, key: string): Option<Json> {
    if key !in patch then Look(target, key)
    else if patch[key].Null? then None
    else Some(Merged(Get(target, key), patch[key]))
  }

  lemma MergedLook(target: Json, patch: Json, key: string)
    requires patch.Obj?
    ensures Merged(target, patch).Obj?
    ensures Look(Merged(target, patch).fields, key) == PatchedLook(FieldsOf(target), patch.fields, key)
  {
  }

  lemma MergedFromLook(target: Json, patch: Json, out: Fields)
    requires patch.Obj?
    requires forall key :: Look(out, key) == PatchedLook(FieldsOf(target), patch.fields, key)
    ensures Obj(out) == Merged(target, patch)
  {
    forall key ensures Look(out, key) == Look(Merged(target, patch).fields, key) {
      MergedLook(target, patch, key);
    }
    FieldsEqual(out, Merged(target, patch).fields);
  }

  /** mergePatch: Go's loop over the patch's members, in any order. */
  method ApplyPatch(target: Json, patch: Json) returns (merged: Json)
    ensures merged == Merged(target, patch)
    decreases patch
  {
    if !patch.Obj? {
      return patch;
    }
    var before := FieldsOf(target);
    var out := before;
    var todo := patch.fields.Keys;
    while todo != {}
      invariant todo <= patch.fields.Keys
      invariant forall key :: Look(out, key) ==
                              if key in todo then Look(before, key) else PatchedLook(before, patch.fields, key)
      decreases |todo|
    {
      var key :| key in todo;
      var value := patch.fields[key];
      assert Look(out, key) == Look(before, key);
      todo := todo - {key};
      if value.Null? {
        out := out - {key};
      } else if value.Obj? {
        var child := ApplyPatch(Get(out, key), value);
        out := out[key := child];
      } else {
        out := out[key := value];
      }
    }
    MergedFromLook(target, patch, out);
    return Obj(out);
  }

  /** Where the merged document is read along a path, one step at a time. */
  lemma MergedValueAt(target: Json, patch: Json, path: seq<string>)
    requires patch.Obj? && path != []
    ensures ValueAt(Merged(target, patch), path) ==
            if path[0] !in patch.fields then ValueAt(target, path)
            else if patch.fields[path[0]].Null? then Null
            else ValueAt(Merged(Get(FieldsOf(target), path[0]), patch.fields[path[0]]), path[1..])
  {
    MergedLook(target, patch, path[0]);
    NullBelow(path[1..]);
  }

  /** Applying a patch a second time changes nothing. */
  lemma {:induction false} MergeIdempotent(target: Json, patch: Json)
    ensures Merged(Merged(target, patch), patch) == Merged(target, patch)
    decreases patch
  {
    if patch.Obj? {
      var once := Merged(target, patch);
      forall key ensures Look(Merged(once, patch).fields, key) == Look(once.fields, key) {
        MergedLook(target, patch, key);
        MergedLook(once, patch, key);
        if key in patch.fields {
          MergeIdempotent(Get(FieldsOf(target), key), patch.fields[key]);
        }
      }
      FieldsEqual(Merged(once, patch).fields, once.fields);
    }
  }

  /** A plain value the merged document holds is the target's at that path, or the patch's leaf at exactly that path. */
  lemma {:induction false} MergeFrame(target: Json, patch: Json, path: seq<string>)
    requires Plain(ValueAt(Merged(target, patch), path))
    ensures ValueAt(Merged(target, patch), path) == ValueAt(target, path)
            || ValueAt(Merged(target, patch), path) == ValueAt(patch, path)
    decreases patch
  {
    if patch.Obj? && path != [] {
      MergedValueAt(target, patch, path);
      var key := path[0];
      if key in patch.fields {
        MergeFrame(Get(FieldsOf(target), key), patch.fields[key], path[1..]);
        NullBelow(path[1..]);
      }
    }
  }

  /** Whatever the merged document holds somewhere, the target or the patch held something there. */
  lemma {:induction false} MergeAddsNothing(target: Json, patch: Json, path: seq<string>)
    requires !ValueAt(Merged(target, patch), path).Null?
    ensures !ValueAt(target, path).Null? || !ValueAt(patch, path).Null?
    decreases patch
  {
    if patch.Obj? && path != [] {
      MergedValueAt(target, patch, path);
      var key := path[0];
      if key in patch.fields {
        MergeAddsNothing(Get(FieldsOf(target), key), patch.fields[key], path[1..]);
        NullBelow(path[1..]);
      }
    }
  }

  /** Conversely every plain leaf of the patch is in the merged document. */
  lemma {:induction false} PatchWins(target: Json, patch: Json, path: seq<string>)
    requires Plain(ValueAt(patch, path))
    ensures ValueAt(Merged(target, patch), path) == ValueAt(patch, path)
    decreases patch
  {
    if path != [] {
      MergedValueAt(target, patch, path);
      NullBelow(path[1..]);
      var key := path[0];
      if key in patch.fields {
        PatchWins(Get(FieldsOf(target), key), patch.fields[key], path[1..]);
      }
    }
  }

  /** Only the target's members matter to an object patch. */
  lemma MergedIntoFields(target: Json, patch: Json)
    requires patch.Obj?
    ensures Merged(target, patch) == Obj(MergedFields(FieldsOf(target), patch.fields))
  {
    forall key ensures Look(Merged(target, patch).fields, key) ==
        Look(MergedFields(FieldsOf(target), patch.fields), key) {
      MergedLook(target, patch, key);
      MergedLook(Obj(FieldsOf(target)), Obj(patch.fields), key);
    }
    FieldsEqual(Merged(target, patch).fields, MergedFields(FieldsOf(target), patch.fields));
  }

  lemma MergeNothing(target: Fields)
    ensures MergedFields(target, map[]) == target
  {
    forall key ensures Look(MergedFields(target, map[]), key) == Look(target, key) {
      MergedLook(Obj(target), Obj(map[]), key);
    }
    FieldsEqual(MergedFields(target, map[]), target);
  }
}
