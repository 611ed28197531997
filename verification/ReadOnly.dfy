/** Properties a patch may not send (internal/configengine/tree.go, readOnlyPointers). */
module ReadOnly {
  import opened GoStrings
  import opened Json
  import opened Leaves
  import opened MergePatch
  import opened Pointer
  import opened Schema

  /** A readOnly property reached through sections, maps and map entries. */
  predicate ReadOnlyAt(schema: Schema, path: seq<string>)
    decreases schema, 0
  {
    path != [] && path[0] in schema.Children() && ReadOnlyBelow(schema.Children()[path[0]], path[1..])
  }

  predicate ReadOnlyBelow(property: Schema, rest: seq<string>)
    decreases property, 1
  {
    if property.readOnly then rest == []
    else if property.Nested() then ReadOnlyAt(property, rest)
    else property.IsMap() && rest != [] && ReadOnlyAt(property.entries.item, rest[1..])
  }

  /** The path runs through objects of the document and its last key is present, whatever the value. */
  predicate Sent(node: Json, path: seq<string>)
    decreases |path|
  {
    path == [] || (node.Obj? && path[0] in node.fields && Sent(node.fields[path[0]], path[1..]))
  }

  /** What one loop of readOnlyPointers lists: the sent readOnly paths whose first key is outside `todo`. */
  ghost predicate Lists(found: seq<string> -> bool, body: Json, todo: set<string>, base: string,
                        out: seq<string>, paths: seq<seq<string>>) {
    && |out| == |paths| && Distinct(paths)
    && (forall path :: path in paths <==> path != [] && path[0] !in todo && found(path) && Sent(body, path))
    && (forall i :: 0 <= i < |out| ==> out[i] == Extend(base, paths[i]))
  }

  ghost predicate ListsBelow(found: seq<string> -> bool, value: Json, base: string,
                             out: seq<string>, paths: seq<seq<string>>) {
    && |out| == |paths| && Distinct(paths)
    && (forall rest :: rest in paths <==> found(rest) && Sent(value, rest))
    && (forall i :: 0 <= i < |out| ==> out[i] == Extend(base, paths[i]))
  }

  lemma ListsOneMore(found: seq<string> -> bool, below: seq<string> -> bool, body: Fields, todo: set<string>,
      key: string, base: string,
                     out: seq<string>, paths: seq<seq<string>>, sub: seq<string>, more: seq<seq<string>>)
    requires Lists(found, Obj(body), todo, base, out, paths)
    requires key in todo && key in body
    requires forall path :: path != [] && path[0] == key ==> found(path) == below(path[1..])
    requires ListsBelow(below, body[key], base + "/" + Escape(key), sub, more)
    ensures Lists(found, Obj(body), todo - {key}, base, out + sub, paths + Under(key, more))
  {
    UnderOneMore(paths, key, more);
    var all := paths + Under(key, more);
    forall i | 0 <= i < |all| ensures (out + sub)[i] == Extend(base, all[i]) {
      if i >= |paths| {
        assert all[i][1..] == more[i - |paths|];
      }
    }
  }

  /** What is listed for one property whose value is `value`, case by case. */
  lemma BelowCases(property: Schema, value: Json, rest: seq<string>)
    ensures ReadOnlyBelow(property, rest) && Sent(value, rest) <==>
            if property.readOnly then rest == []
            else if property.Nested() then rest != [] && ReadOnlyAt(property, rest) && Sent(Obj(FieldsOf(value)), rest)
            else
              property.IsMap() && rest != [] && ReadOnlyAt(property.entries.item, rest[1..])
              && Sent(Obj(FieldsOf(value)), rest)
  {
  }

  /** The pointer of a readOnly property that the body sends. */
  ghost predicate SentReadOnly(schema: Schema, body: Fields, base: string, pointer: string) {
    exists path :: ReadOnlyAt(schema, path) && Sent(Obj(body), path) && pointer == Extend(base, path)
  }

  lemma ListedExactly(schema: Schema, body: Fields, base: string, out: seq<string>, paths: seq<seq<string>>)
    requires Lists(path => ReadOnlyAt(schema, path), Obj(body), {}, base, out, paths)
    ensures forall pointer :: pointer in out <==> SentReadOnly(schema, body, base, pointer)
    ensures forall i, j :: 0 <= i < j < |out| ==> out[i] != out[j]
  {
    forall i | 0 <= i < |out| ensures SentReadOnly(schema, body, base, out[i]) {
      assert paths[i] in paths;
    }
    forall pointer | SentReadOnly(schema, body, base, pointer) ensures pointer in out {
      var path :| ReadOnlyAt(schema, path) && Sent(Obj(body), path) && pointer == Extend(base, path);
      assert path in paths;
      var i :| 0 <= i < |paths| && paths[i] == path;
      assert out[i] in out;
    }
    forall i, j | 0 <= i < j < |out| ensures out[i] != out[j] {
      if out[i] == out[j] { ExtendInjective(base, paths[i], paths[j]); }
    }
  }

  /** readOnlyPointers: every readOnly property the body sends, once. */
  method ReadOnlyPointers(schema: Schema, body: Fields, base: string)
    returns (out: seq<string>, ghost paths: seq<seq<string>>)
    ensures Lists(path => ReadOnlyAt(schema, path), Obj(body), {}, base, out, paths)
    ensures forall pointer :: pointer in out <==> SentReadOnly(schema, body, base, pointer)
    ensures forall i, j :: 0 <= i < j < |out| ==> out[i] != out[j]
    decreases schema, 0
  {
    out, paths := [], [];
    ghost var found := path => ReadOnlyAt(schema, path);
    var todo := body.Keys;
    while todo != {}
      invariant todo <= body.Keys
      invariant Lists(found, Obj(body), todo, base, out, paths)
      decreases |todo|
    {
      var key :| key in todo;
      var sub := [];
      ghost var more := [];
      ghost var below: seq<string> -> bool :=
          rest => key in schema.Children() && ReadOnlyBelow(schema.Children()[key], rest);
      if key in schema.Children() {
        var property := schema.Children()[key];
        var pointer := base + "/" + Escape(key);
        var child := FieldsOf(body[key]);
        if property.readOnly {
          sub, more := [pointer], [[]];
        } else if property.Nested() {
          sub, more := ReadOnlyPointers(property, child, pointer);
        } else if property.IsMap() {
          sub, more := EntryPointers(property.entries.item, child, pointer);
        }
        forall rest ensures rest in more <==> ReadOnlyBelow(property, rest) && Sent(body[key], rest) {
          BelowCases(property, body[key], rest);
        }
      }
      assert ListsBelow(below, body[key], base + "/" + Escape(key), sub, more);
      ListsOneMore(found, below, body, todo, key, base, out, paths, sub, more);
      todo := todo - {key};
      out, paths := out + sub, paths + Under(key, more);
    }
    ListedExactly(schema, body, base, out, paths);
  }

  method EntryPointers(item: Schema, entries: Fields, base: string)
    returns (out: seq<string>, ghost paths: seq<seq<string>>)
    ensures Lists(path => path != [] && ReadOnlyAt(item, path[1..]), Obj(entries), {}, base, out, paths)
    decreases item, 1
  {
    out, paths := [], [];
    ghost var found: seq<string> -> bool := path => path != [] && ReadOnlyAt(item, path[1..]);
    ghost var below: seq<string> -> bool := path => ReadOnlyAt(item, path);
    var todo := entries.Keys;
    while todo != {}
      invariant todo <= entries.Keys
      invariant Lists(found, Obj(entries), todo, base, out, paths)
      decreases |todo|
    {
      var key :| key in todo;
      var sub, more := ReadOnlyPointers(item, FieldsOf(entries[key]), base + "/" + Escape(key));
      assert ListsBelow(below, entries[key], base + "/" + Escape(key), sub, more);
      ListsOneMore(found, below, entries, todo, key, base, out, paths, sub, more);
      todo := todo - {key};
      out, paths := out + sub, paths + Under(key, more);
    }
  }

  // ----- What the refusal protects -----

  /** Along the path the body holds only objects, up to a key it does not send. */
  predicate ObjectsAlong(body: Json, path: seq<string>)
    decreases |path|
  {
    path != [] && body.Obj? && (path[0] in body.fields ==> ObjectsAlong(body.fields[path[0]], path[1..]))
  }

  function DocumentWith(path: seq<string>, value: Json): Json
    decreases |path|
  {
    if path == [] then value else Obj(map[path[0] := DocumentWith(path[1..], value)])
  }

  lemma {:induction false} KeptThroughObjects(target: Json, body: Json, path: seq<string>)
    requires ObjectsAlong(body, path)
    ensures ValueAt(Merged(target, body), path) == ValueAt(target, path)
    decreases |path|
  {
    MergedValueAt(target, body, path);
    NullBelow(path[1..]);
    if path[0] in body.fields {
      KeptThroughObjects(Get(FieldsOf(target), path[0]), body.fields[path[0]], path[1..]);
    }
  }

  lemma {:induction false} UnsentReadsNull(body: Json, path: seq<string>)
    requires ObjectsAlong(body, path)
    ensures ValueAt(body, path) == Null
    decreases |path|
  {
    NullBelow(path[1..]);
    if path[0] in body.fields {
      UnsentReadsNull(body.fields[path[0]], path[1..]);
    }
  }

  /** How a merged document reads at one path, given only the two documents that were merged. */
  ghost predicate ReadsMergedAt(target: Json, body: Json, merged: Json, path: seq<string>) {
    if ObjectsAlong(body, path) then ValueAt(merged, path) == ValueAt(target, path)
    else if ValueAt(body, path).Obj? then ValueAt(merged, path).Obj?
    else ValueAt(merged, path) == ValueAt(body, path)
  }

  /**
   * Every path of a merged document: the target's value where the body sends objects up to a key it does not send, an
   * object where the body sends one, and the body's own value everywhere else; nothing, where it sends null or sends
   * a value that is no object on the way.
   */
  lemma {:induction false} MergedReadsExactly(target: Json, body: Json, path: seq<string>)
    ensures ReadsMergedAt(target, body, Merged(target, body), path)
    decreases |path|
  {
    if body.Obj? && path != [] {
      MergedValueAt(target, body, path);
      NullBelow(path[1..]);
      if path[0] in body.fields {
        MergedReadsExactly(Get(FieldsOf(target), path[0]), body.fields[path[0]], path[1..]);
      }
    }
  }

  lemma {:induction false} LostWithoutObjects(body: Json, path: seq<string>, value: Json)
    requires !ObjectsAlong(body, path) && !Sent(body, path)
    requires !value.Null?
    ensures ValueAt(DocumentWith(path, value), path) == value
    ensures ValueAt(Merged(DocumentWith(path, value), body), path) == Null
    decreases |path|
  {
    var document := DocumentWith(path, value);
    if body.Obj? {
      MergedValueAt(document, body, path);
      LostWithoutObjects(body.fields[path[0]], path[1..], value);
      NullBelow(path[1..]);
    } else {
      NullBelow(path[1..]);
      StoredAt(path, value);
    }
  }

  lemma {:induction false} StoredAt(path: seq<string>, value: Json)
    ensures ValueAt(DocumentWith(path, value), path) == value
    decreases |path|
  {
    if path != [] {
      StoredAt(path[1..], value);
    }
  }

  /**
   * A patch in which no readOnly pointer was found keeps a readOnly value of every stored document if and only if it
   * sends objects along the way to it. A null (or any other value) for a parent removes the value unrefused.
   */
  lemma ReadOnlyKeptExactly(schema: Schema, body: Fields, path: seq<string>)
    requires ReadOnlyAt(schema, path) && !Sent(Obj(body), path)
    ensures (forall raw: Fields :: ValueAt(Obj(MergedFields(raw, body)), path) == ValueAt(Obj(raw), path))
            <==> ObjectsAlong(Obj(body), path)
  {
    if ObjectsAlong(Obj(body), path) {
      forall raw: Fields ensures ValueAt(Obj(MergedFields(raw, body)), path) == ValueAt(Obj(raw), path) {
        KeptThroughObjects(Obj(raw), Obj(body), path);
      }
    } else {
      var raw := DocumentWith(path, Bool(true)).fields;
      LostWithoutObjects(Obj(body), path, Bool(true));
      assert ValueAt(Obj(MergedFields(raw, body)), path) != ValueAt(Obj(raw), path);
    }
  }
}
