/** Which changed leaves need a restart (internal/configengine/tree.go, restartDiff and propertyAt). */
module Restart {
  import opened GoStrings
  import opened Json
  import opened Leaves
  import opened Pointer
  import opened Schema

  datatype RestartEntry = RestartEntry(pointer: string, title: string, reason: string)

  /** titleOf */
  function TitleOf(property: Schema, fallback: string): string {
    if property.title != "" then property.title else fallback
  }

  /** The schema node a path of keys designates: a property before a map entry (propertyAt). */
  function PropertyAt(schema: Schema, path: seq<string>): Option<Schema>
    decreases |path|
  {
    if path == [] then Some(schema)
    else if path[0] in schema.Children() then PropertyAt(schema.Children()[path[0]], path[1..])
    else if schema.IsMap() then PropertyAt(schema.entries.item, path[1..])
    else None
  }

  /** propertyAt: the loop over the pointer's segments. */
  method FindProperty(schema: Schema, pointer: string) returns (property: Option<Schema>)
    ensures property == PropertyAt(schema, SegmentsOf(pointer))
  {
    var segments := ParsePointer(pointer);
    var node := schema;
    for i := 0 to |segments|
      invariant PropertyAt(node, segments[i..]) == PropertyAt(schema, segments)
    {
      if segments[i] in node.Children() {
        node := node.Children()[segments[i]];
      } else if node.IsMap() {
        node := node.entries.item;
      } else {
        return None;
      }
    }
    return Some(node);
  }

  /** The flagged leaf property at a path through sections, maps and structured map entries. */
  function FlaggedAt(schema: Schema, path: seq<string>): Option<Schema>
    decreases schema, 0
  {
    if path == [] || path[0] !in schema.Children() then None
    else FlaggedBelow(schema.Children()[path[0]], path[1..])
  }

  function FlaggedBelow(property: Schema, rest: seq<string>): Option<Schema>
    decreases property, 2
  {
    if property.Nested() then FlaggedAt(property, rest)
    else if property.IsMap() then
      if rest == [] then None else FlaggedEntry(property.entries.item, rest[1..])
    else if rest == [] && property.requiresRestart then Some(property) else None
  }

  function FlaggedEntry(item: Schema, rest: seq<string>): Option<Schema>
    decreases item, 1
  {
    if item.Nested() then FlaggedAt(item, rest)
    else if rest == [] && item.requiresRestart then Some(item) else None
  }

  /** A restart leaf whose value differs between the two documents. */
  predicate NeedsRestart(schema: Schema, before: Fields, after: Fields, path: seq<string>) {
    FlaggedAt(schema, path).Some? && ValueAt(Obj(before), path) != ValueAt(Obj(after), path)
  }

  function EntryAt(schema: Schema, base: string, path: seq<string>): RestartEntry
    requires FlaggedAt(schema, path).Some?
  {
    RestartEntry(Extend(base, path), TitleOf(FlaggedAt(schema, path).value, path[|path| - 1]),
        FlaggedAt(schema, path).value.reason)
  }

  // ----- restartDiff -----

  /** The flagged leaf at or below one property, or below one map entry. */
  function Below(property: Schema, isEntry: bool, rest: seq<string>): Option<Schema> {
    if isEntry then FlaggedEntry(property, rest) else FlaggedBelow(property, rest)
  }

  /** The properties one loop ranges over: the schema's own, or its one item under every key. */
  function ChildAt(schema: Schema, asMap: bool, key: string): Option<Schema> {
    if asMap then if schema.IsMap() then Some(schema.entries.item) else None
    else if key in schema.Children() then Some(schema.Children()[key]) else None
  }

  function LevelAt(schema: Schema, asMap: bool, path: seq<string>): Option<Schema> {
    if path == [] || ChildAt(schema, asMap, path[0]).None? then None
    else Below(ChildAt(schema, asMap, path[0]).value, asMap, path[1..])
  }

  /** A flagged leaf of one level whose value differs. */
  predicate Differs(schema: Schema, asMap: bool, previous: Json, next: Json, path: seq<string>) {
    LevelAt(schema, asMap, path).Some? && ValueAt(previous, path) != ValueAt(next, path)
  }

  /** `out` lists the differing flagged leaves of one level outside `todo`; `paths` witnesses where they lie. */
  ghost predicate Lists(schema: Schema, asMap: bool, todo: set<string>, previous: Json, next: Json, base: string,
                        out: seq<RestartEntry>, paths: seq<seq<string>>) {
    && |out| == |paths| && Distinct(paths)
    && (forall path :: path in paths <==>
        path != [] && path[0] !in todo && Differs(schema, asMap, previous, next, path))
    && (forall i :: 0 <= i < |out| ==> Describes(LevelAt(schema, asMap, paths[i]), base, "", paths[i], out[i]))
  }

  /** The same for one property, whose values are `previous` and `next`. */
  ghost predicate ListsBelow(property: Schema, isEntry: bool, key: string, previous: Json, next: Json, base: string,
                             out: seq<RestartEntry>, paths: seq<seq<string>>) {
    && |out| == |paths| && Distinct(paths)
    && (forall rest :: rest in paths <==>
        Below(property, isEntry, rest).Some? && ValueAt(previous, rest) != ValueAt(next, rest))
    && (forall i :: 0 <= i < |out| ==> Describes(Below(property, isEntry, paths[i]), base, key, paths[i], out[i]))
  }

  predicate Describes(found: Option<Schema>, base: string, key: string, path: seq<string>, entry: RestartEntry) {
    found.Some? && entry == RestartEntry(Extend(base, path),
      TitleOf(found.value, if path == [] then key else path[|path| - 1]), found.value.reason)
  }

  lemma AtKey(value: Json, path: seq<string>)
    requires path != []
    ensures ValueAt(value, path) == ValueAt(Get(FieldsOf(value), path[0]), path[1..])
  {
    NullBelow(path[1..]);
  }

  /** One turn of the loop: the listing below one more key joins the listing so far. */
  lemma ListsOneMore(schema: Schema, asMap: bool, todo: set<string>, key: string, previous: Json, next: Json,
      base: string,
                     out: seq<RestartEntry>, paths: seq<seq<string>>, sub: seq<RestartEntry>, found: seq<seq<string>>)
    requires Lists(schema, asMap, todo, previous, next, base, out, paths)
    requires key in todo && ChildAt(schema, asMap, key).Some?
    requires ListsBelow(ChildAt(schema, asMap, key).value, asMap, key, Get(FieldsOf(previous), key),
        Get(FieldsOf(next), key),
                        base + "/" + Escape(key), sub, found)
    ensures Lists(schema, asMap, todo - {key}, previous, next, base, out + sub, paths + Under(key, found))
  {
    UnderOneMore(paths, key, found);
    PathsOneMore(schema, asMap, todo, key, previous, next, paths, found);
    var all := paths + Under(key, found);
    forall i | 0 <= i < |all| ensures Describes(LevelAt(schema, asMap, all[i]), base, "", all[i], (out + sub)[i]) {
      if i >= |paths| {
        assert all[i] == [key] + found[i - |paths|];
        DescribesUnder(schema, asMap, base, key, found[i - |paths|], sub[i - |paths|]);
      }
    }
  }

  /** An entry described below a key is described from above it. */
  lemma DescribesUnder(schema: Schema, asMap: bool, base: string, key: string, rest: seq<string>, entry: RestartEntry)
    requires ChildAt(schema, asMap, key).Some?
    requires Describes(Below(ChildAt(schema, asMap, key).value, asMap, rest), base + "/" + Escape(key), key, rest,
                 entry)
    ensures Describes(LevelAt(schema, asMap, [key] + rest), base, "", [key] + rest, entry)
  {
    assert ([key] + rest)[1..] == rest;
  }

  lemma PathsOneMore(schema: Schema, asMap: bool, todo: set<string>, key: string, previous: Json, next: Json,
                     paths: seq<seq<string>>, found: seq<seq<string>>)
    requires key in todo && ChildAt(schema, asMap, key).Some?
    requires forall path :: path in paths <==>
        path != [] && path[0] !in todo && Differs(schema, asMap, previous, next, path)
    requires forall rest :: rest in found <==> Below(ChildAt(schema, asMap, key).value, asMap, rest).Some?
                                               && ValueAt(Get(FieldsOf(previous), key), rest) !=
                                                   ValueAt(Get(FieldsOf(next), key), rest)
    requires forall path :: path in paths + Under(key, found) <==>
        path in paths || (path != [] && path[0] == key && path[1..] in found)
    ensures forall path :: path in paths + Under(key, found)
                           <==> path != [] && path[0] !in todo - {key} && Differs(schema, asMap, previous, next, path)
  {
    forall path | path != [] && path[0] == key
      ensures Differs(schema, asMap, previous, next, path) <==> path[1..] in found
    {
      AtKey(previous, path);
      AtKey(next, path);
    }
  }

  lemma ListsWhole(property: Schema, isEntry: bool, key: string, previous: Json, next: Json, base: string,
                   out: seq<RestartEntry>, paths: seq<seq<string>>, asMap: bool)
    requires Lists(property, asMap, {}, Obj(FieldsOf(previous)), Obj(FieldsOf(next)), base, out, paths)
    requires if asMap then !isEntry && !property.Nested() && property.IsMap() else property.Nested()
    ensures ListsBelow(property, isEntry, key, previous, next, base, out, paths)
  {
    forall rest ensures rest in paths <==>
        Below(property, isEntry, rest).Some? && ValueAt(previous, rest) != ValueAt(next, rest) {
      LevelIsBelow(property, isEntry, asMap, rest);
      if rest != [] {
        AtKey(previous, rest);
        AtKey(next, rest);
      }
    }
    forall i | 0 <= i < |out| ensures Describes(Below(property, isEntry, paths[i]), base, key, paths[i], out[i]) {
      assert paths[i] in paths;
      LevelIsBelow(property, isEntry, asMap, paths[i]);
    }
  }

  lemma LevelIsBelow(property: Schema, isEntry: bool, asMap: bool, rest: seq<string>)
    requires if asMap then !isEntry && !property.Nested() && property.IsMap() else property.Nested()
    ensures LevelAt(property, asMap, rest) == Below(property, isEntry, rest)
    ensures LevelAt(property, asMap, rest).Some? ==> rest != []
  {
    if !asMap {
      LevelIsFlagged(property, rest);
      assert Below(property, isEntry, rest) == FlaggedAt(property, rest);
    }
  }

  /** The entry of a restart leaf whose value differs. */
  ghost predicate DueEntry(schema: Schema, before: Fields, after: Fields, base: string, entry: RestartEntry) {
    exists path :: NeedsRestart(schema, before, after, path) && entry == EntryAt(schema, base, path)
  }

  lemma ListedExactly(schema: Schema, before: Fields, after: Fields, base: string, out: seq<RestartEntry>,
      paths: seq<seq<string>>)
    requires |out| == |paths| && Distinct(paths)
    requires forall path :: path in paths <==> NeedsRestart(schema, before, after, path)
    requires forall i :: 0 <= i < |out| ==>
        FlaggedAt(schema, paths[i]).Some? && out[i] == EntryAt(schema, base, paths[i])
    ensures forall entry :: entry in out <==> DueEntry(schema, before, after, base, entry)
    ensures forall i, j :: 0 <= i < j < |out| ==> out[i].pointer != out[j].pointer
  {
    forall i | 0 <= i < |out| ensures DueEntry(schema, before, after, base, out[i]) {
      assert paths[i] in paths;
    }
    forall entry | DueEntry(schema, before, after, base, entry) ensures entry in out {
      var path :| NeedsRestart(schema, before, after, path) && entry == EntryAt(schema, base, path);
      assert path in paths;
      var i :| 0 <= i < |paths| && paths[i] == path;
      assert out[i] in out;
    }
    forall i, j | 0 <= i < j < |out| ensures out[i].pointer != out[j].pointer {
      if out[i].pointer == out[j].pointer { ExtendInjective(base, paths[i], paths[j]); }
    }
  }

  /** restartDiff: every restart leaf that differs, once, with its pointer, title and reason. */
  method RestartDiff(schema: Schema, before: Fields, after: Fields, base: string)
    returns (out: seq<RestartEntry>, ghost paths: seq<seq<string>>)
    ensures Lists(schema, false, {}, Obj(before), Obj(after), base, out, paths)
    ensures |out| == |paths| && Distinct(paths)
    ensures forall path :: path in paths <==> NeedsRestart(schema, before, after, path)
    ensures forall i :: 0 <= i < |out| ==>
        FlaggedAt(schema, paths[i]).Some? && out[i] == EntryAt(schema, base, paths[i])
    ensures forall entry :: entry in out <==> DueEntry(schema, before, after, base, entry)
    ensures forall i, j :: 0 <= i < j < |out| ==> out[i].pointer != out[j].pointer
    decreases schema, 0
  {
    out, paths := [], [];
    var todo := schema.Children().Keys;
    while todo != {}
      invariant todo <= schema.Children().Keys
      invariant Lists(schema, false, todo, Obj(before), Obj(after), base, out, paths)
      decreases |todo|
    {
      var key :| key in todo;
      var sub, found := PropertyDiff(schema.Children()[key], key, Get(before, key), Get(after, key),
          base + "/" + Escape(key));
      ListsOneMore(schema, false, todo, key, Obj(before), Obj(after), base, out, paths, sub, found);
      todo := todo - {key};
      out, paths := out + sub, paths + Under(key, found);
    }
    forall path ensures path in paths <==> NeedsRestart(schema, before, after, path) {
      LevelIsFlagged(schema, path);
    }
    forall i | 0 <= i < |out| ensures FlaggedAt(schema, paths[i]).Some? && out[i] == EntryAt(schema, base, paths[i]) {
      assert paths[i] in paths;
      LevelIsFlagged(schema, paths[i]);
    }
    ListedExactly(schema, before, after, base, out, paths);
  }

  /** The branches of restartDiff for one property: a section, a map, or a leaf. */
  method PropertyDiff(property: Schema, key: string, previous: Json, next: Json, pointer: string)
    returns (sub: seq<RestartEntry>, ghost found: seq<seq<string>>)
    ensures ListsBelow(property, false, key, previous, next, pointer, sub, found)
    decreases property, 4
  {
    if property.Nested() {
      sub, found := RestartDiff(property, FieldsOf(previous), FieldsOf(next), pointer);
      ListsWhole(property, false, key, previous, next, pointer, sub, found, false);
    } else if property.IsMap() {
      sub, found := EntriesDiff(property, FieldsOf(previous), FieldsOf(next), pointer);
      ListsWhole(property, false, key, previous, next, pointer, sub, found, true);
    } else if property.requiresRestart && previous != next {
      sub, found := [RestartEntry(pointer, TitleOf(property, key), property.reason)], [[]];
    } else {
      sub, found := [], [];
    }
  }

  /** The branches for one map entry: a structured one, or a leaf. */
  method EntryDiff(item: Schema, key: string, previous: Json, next: Json, pointer: string)
    returns (sub: seq<RestartEntry>, ghost found: seq<seq<string>>)
    ensures ListsBelow(item, true, key, previous, next, pointer, sub, found)
    decreases item, 2
  {
    if item.Nested() {
      sub, found := RestartDiff(item, FieldsOf(previous), FieldsOf(next), pointer);
      ListsWhole(item, true, key, previous, next, pointer, sub, found, false);
    } else if item.requiresRestart && previous != next {
      sub, found := [RestartEntry(pointer, TitleOf(item, key), item.reason)], [[]];
    } else {
      sub, found := [], [];
    }
  }

  lemma LevelIsFlagged(schema: Schema, path: seq<string>)
    ensures LevelAt(schema, false, path) == FlaggedAt(schema, path)
    ensures FlaggedAt(schema, path).Some? ==> path != []
  {
  }

  /** The loop of restartDiff over the entries of one map, under the union of both documents' keys. */
  method EntriesDiff(property: Schema, p: Fields, n: Fields, base: string)
    returns (out: seq<RestartEntry>, ghost paths: seq<seq<string>>)
    requires property.IsMap()
    ensures Lists(property, true, {}, Obj(p), Obj(n), base, out, paths)
    decreases property, 1
  {
    var item := property.entries.item;
    out, paths := [], [];
    var todo := p.Keys + n.Keys;
    forall path | path != [] && path[0] !in todo ensures ValueAt(Obj(p), path) == ValueAt(Obj(n), path) {
      AtKey(Obj(p), path);
      AtKey(Obj(n), path);
    }
    while todo != {}
      invariant Lists(property, true, todo, Obj(p), Obj(n), base, out, paths)
      decreases |todo|
    {
      var key :| key in todo;
      var sub, found := EntryDiff(item, key, Get(p, key), Get(n, key), base + "/" + Escape(key));
      ListsOneMore(property, true, todo, key, Obj(p), Obj(n), base, out, paths, sub, found);
      todo := todo - {key};
      out, paths := out + sub, paths + Under(key, found);
    }
  }

  // ----- The schema lint of a load -----

  /** Every restart leaf of the schema has a reason. */
  ghost predicate ReasonsGiven(schema: Schema) {
    forall path :: FlaggedAt(schema, path).Some? ==> FlaggedAt(schema, path).value.reason != ""
  }

  ghost predicate ReasonsBelow(property: Schema) {
    forall rest :: FlaggedBelow(property, rest).Some? ==> FlaggedBelow(property, rest).value.reason != ""
  }

  lemma ReasonsByKey(schema: Schema)
    ensures ReasonsGiven(schema) <==> forall key :: key in schema.Children() ==> ReasonsBelow(schema.Children()[key])
  {
    if ReasonsGiven(schema) {
      forall key, rest | key in schema.Children() && FlaggedBelow(schema.Children()[key], rest).Some?
        ensures FlaggedBelow(schema.Children()[key], rest).value.reason != ""
      {
        assert ([key] + rest)[1..] == rest;
        assert FlaggedAt(schema, [key] + rest) == FlaggedBelow(schema.Children()[key], rest);
      }
    }
    if forall key :: key in schema.Children() ==> ReasonsBelow(schema.Children()[key]) {
      forall path | FlaggedAt(schema, path).Some? ensures FlaggedAt(schema, path).value.reason != "" {
        assert FlaggedAt(schema, path) == FlaggedBelow(schema.Children()[path[0]], path[1..]);
        assert ReasonsBelow(schema.Children()[path[0]]);
      }
    }
  }

  lemma ReasonsOfSection(property: Schema)
    requires property.Nested()
    ensures ReasonsBelow(property) <==> ReasonsGiven(property)
  {
    assert forall rest :: FlaggedBelow(property, rest) == FlaggedAt(property, rest);
  }

  lemma ReasonsOfLeaf(property: Schema)
    requires !property.Nested() && !property.IsMap()
    ensures ReasonsBelow(property) <==> (property.requiresRestart ==> property.reason != "")
  {
    assert property.requiresRestart ==> FlaggedBelow(property, []) == Some(property);
  }

  ghost predicate ReasonsOfItem(item: Schema) {
    forall rest :: FlaggedEntry(item, rest).Some? ==> FlaggedEntry(item, rest).value.reason != ""
  }

  lemma ReasonsOfMap(property: Schema)
    requires !property.Nested() && property.IsMap()
    ensures ReasonsBelow(property) <==> ReasonsOfItem(property.entries.item)
  {
    var item := property.entries.item;
    if ReasonsBelow(property) {
      forall rest | FlaggedEntry(item, rest).Some? ensures FlaggedEntry(item, rest).value.reason != "" {
        assert (["*"] + rest)[1..] == rest;
        assert FlaggedBelow(property, ["*"] + rest) == FlaggedEntry(item, rest);
      }
    }
    if ReasonsOfItem(item) {
      forall rest | FlaggedBelow(property, rest).Some? ensures FlaggedBelow(property, rest).value.reason != "" {
        assert FlaggedBelow(property, rest) == FlaggedEntry(item, rest[1..]);
      }
    }
  }

  lemma ReasonsOfEntry(item: Schema)
    ensures item.Nested() ==> (ReasonsOfItem(item) <==> ReasonsGiven(item))
    ensures !item.Nested() ==> (ReasonsOfItem(item) <==> (item.requiresRestart ==> item.reason != ""))
  {
    assert item.Nested() ==> forall rest :: FlaggedEntry(item, rest) == FlaggedAt(item, rest);
    assert !item.Nested() && item.requiresRestart ==> FlaggedEntry(item, []) == Some(item);
  }

  /** flaggedWithoutReason: the pointers it lists are only logged; that there are none is what a load asks. */
  method FlaggedWithoutReason(schema: Schema, base: string) returns (out: seq<string>)
    ensures out == [] <==> ReasonsGiven(schema)
    decreases schema
  {
    out := [];
    var todo := schema.Children().Keys;
    while todo != {}
      invariant todo <= schema.Children().Keys
      invariant out == [] <==> forall key :: key in schema.Children().Keys - todo ==>
          ReasonsBelow(schema.Children()[key])
      decreases |todo|
    {
      var key :| key in todo;
      todo := todo - {key};
      var property, pointer := schema.Children()[key], base + "/" + Escape(key);
      var sub := [];
      if property.Nested() {
        ReasonsOfSection(property);
        sub := FlaggedWithoutReason(property, pointer);
      } else if property.IsMap() {
        var item := property.entries.item;
        ReasonsOfMap(property);
        ReasonsOfEntry(item);
        if item.Nested() {
          sub := FlaggedWithoutReason(item, pointer + "/*");
        } else if item.requiresRestart && item.reason == "" {
          sub := [pointer + "/*"];
        }
      } else {
        ReasonsOfLeaf(property);
        if property.requiresRestart && property.reason == "" {
          sub := [pointer];
        }
      }
      assert sub == [] <==> ReasonsBelow(property);
      out := out + sub;
    }
    ReasonsByKey(schema);
  }

  /** Every listed path designates, for propertyAt too, a schema node that needs a restart. */
  lemma {:induction false} FlaggedIsProperty(schema: Schema, path: seq<string>)
    requires FlaggedAt(schema, path).Some?
    ensures PropertyAt(schema, path) == FlaggedAt(schema, path)
    ensures FlaggedAt(schema, path).value.requiresRestart
    decreases schema
  {
    var property := schema.Children()[path[0]];
    var rest := path[1..];
    assert FlaggedAt(schema, path) == FlaggedBelow(property, rest);
    assert PropertyAt(schema, path) == PropertyAt(property, rest);
    if property.Nested() {
      FlaggedIsProperty(property, rest);
    } else if property.IsMap() {
      var item := property.entries.item;
      assert FlaggedBelow(property, rest) == FlaggedEntry(item, rest[1..]);
      assert PropertyAt(property, rest) == PropertyAt(item, rest[1..]);
      if item.Nested() {
        FlaggedIsProperty(item, rest[1..]);
      }
    }
  }

  /** What an entry says: the pointer, the property's own title or else its key, and its reason. */
  lemma EntryReads(schema: Schema, base: string, path: seq<string>)
    requires FlaggedAt(schema, path).Some?
    ensures PropertyAt(schema, path).Some?
    ensures var entry, property := EntryAt(schema, base, path), PropertyAt(schema, path).value;
            && entry.pointer == Extend(base, path) && entry.reason == property.reason
            && (property.title != "" ==> entry.title == property.title)
            && (property.title == "" ==> entry.title == path[|path| - 1])
  {
    FlaggedIsProperty(schema, path);
  }

  // ----- The set of pending pointers one write adds -----

  function DiffPaths(schema: Schema, before: Fields, after: Fields): set<seq<string>>
    decreases schema, 0
  {
    set key, rest | key in schema.Children() &&
                    rest in DiffBelow(schema.Children()[key], Get(before, key), Get(after, key)) :: [key] + rest
  }

  function DiffBelow(property: Schema, previous: Json, next: Json): set<seq<string>>
    decreases property, 2
  {
    if property.Nested() then DiffPaths(property, FieldsOf(previous), FieldsOf(next))
    else if property.IsMap() then
      var p, n := FieldsOf(previous), FieldsOf(next);
      set key, rest | key in p.Keys + n.Keys &&
                      rest in DiffEntry(property.entries.item, Get(p, key), Get(n, key)) :: [key] + rest
    else if property.requiresRestart && previous != next then {[]} else {}
  }

  function DiffEntry(item: Schema, previous: Json, next: Json): set<seq<string>>
    decreases item, 1
  {
    if item.Nested() then DiffPaths(item, FieldsOf(previous), FieldsOf(next))
    else if item.requiresRestart && previous != next then {[]} else {}
  }

  /** The traversal finds exactly the restart leaves whose values differ. */
  lemma {:induction false} DiffPathsExact(schema: Schema, before: Fields, after: Fields, path: seq<string>)
    ensures path in DiffPaths(schema, before, after) <==> NeedsRestart(schema, before, after, path)
    decreases schema, 0
  {
    if path != [] {
      var key, rest := path[0], path[1..];
      assert path == [key] + rest;
      if key in schema.Children() {
        DiffBelowExact(schema.Children()[key], Get(before, key), Get(after, key), rest);
      }
      assert path in DiffPaths(schema, before, after) <==>
        key in schema.Children() && rest in DiffBelow(schema.Children()[key], Get(before, key), Get(after, key));
    }
  }

  lemma {:induction false} DiffBelowExact(property: Schema, previous: Json, next: Json, rest: seq<string>)
    ensures rest in DiffBelow(property, previous, next) <==>
            FlaggedBelow(property, rest).Some? && ValueAt(previous, rest) != ValueAt(next, rest)
    decreases property, 2
  {
    if rest != [] {
      AtKey(previous, rest);
      AtKey(next, rest);
    }
    if property.Nested() {
      DiffPathsExact(property, FieldsOf(previous), FieldsOf(next), rest);
      LevelIsFlagged(property, rest);
    } else if property.IsMap() {
      if rest != [] {
        var p, n := FieldsOf(previous), FieldsOf(next);
        assert rest == [rest[0]] + rest[1..];
        DiffEntryExact(property.entries.item, Get(p, rest[0]), Get(n, rest[0]), rest[1..]);
        NullBelow(rest[1..]);
      }
    }
  }

  lemma {:induction false} DiffEntryExact(item: Schema, previous: Json, next: Json, rest: seq<string>)
    ensures rest in DiffEntry(item, previous, next) <==>
            FlaggedEntry(item, rest).Some? && ValueAt(previous, rest) != ValueAt(next, rest)
    decreases item, 1
  {
    if item.Nested() {
      if rest != [] {
        AtKey(previous, rest);
        AtKey(next, rest);
      }
      DiffPathsExact(item, FieldsOf(previous), FieldsOf(next), rest);
      LevelIsFlagged(item, rest);
    }
  }

  /** The entries of one write, keyed by pointer. */
  ghost function DiffMap(schema: Schema, before: Fields, after: Fields): map<string, RestartEntry> {
    map pointer | pointer in (set path | path in DiffPaths(schema, before, after) :: Extend("", path)) ::
      EntryOfPointer(schema, pointer)
  }

  ghost function EntryOfPointer(schema: Schema, pointer: string): RestartEntry {
    var path := SegmentsOf(pointer);
    if FlaggedAt(schema, path).Some? then EntryAt(schema, "", path) else RestartEntry("", "", "")
  }

  /** The pending pointers one write adds are those of the restart leaves it changes. */
  lemma DiffMapExact(schema: Schema, before: Fields, after: Fields, path: seq<string>)
    ensures Extend("", path) in DiffMap(schema, before, after) <==> NeedsRestart(schema, before, after, path)
    ensures NeedsRestart(schema, before, after, path) ==>
              DiffMap(schema, before, after)[Extend("", path)] == EntryAt(schema, "", path)
  {
    DiffPathsExact(schema, before, after, path);
    if Extend("", path) in DiffMap(schema, before, after) {
      var other :| other in DiffPaths(schema, before, after) && Extend("", other) == Extend("", path);
      ExtendInjective("", other, path);
    }
    SegmentsOfExtend("", path);
    assert SegmentsOf("") + path == path;
  }
}
