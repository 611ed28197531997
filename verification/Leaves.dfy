/** The leaves of a document, with their pointers (internal/configengine/tree.go, leaves). */
module Leaves {
  import opened GoStrings
  import opened Json
  import opened MergePatch
  import opened Pointer

  datatype Leaf = Leaf(pointer: string, value: Json)

  /** The leaf at a path: a value that is no object, every key on the way being present. */
  function LeafAt(node: Json, path: seq<string>): Option<Json>
    decreases |path|
  {
    if path == [] then if node.Obj? then None else Some(node)
    else if node.Obj? && path[0] in node.fields then LeafAt(node.fields[path[0]], path[1..])
    else None
  }

  ghost predicate Distinct<T>(s: seq<T>) {
    forall i, j :: 0 <= i < j < |s| ==> s[i] != s[j]
  }

  function Under(key: string, paths: seq<seq<string>>): seq<seq<string>> {
    seq(|paths|, i requires 0 <= i < |paths| => [key] + paths[i])
  }

  /** Joining the paths found under one more key keeps the list exact and free of repetition. */
  lemma UnderOneMore(done: seq<seq<string>>, key: string, found: seq<seq<string>>)
    requires Distinct(done) && Distinct(found)
    requires forall path :: path in done ==> path != [] && path[0] != key
    ensures Distinct(done + Under(key, found))
    ensures forall path :: path in done + Under(key, found)
                           <==> path in done || (path != [] && path[0] == key && path[1..] in found)
  {
    var under := Under(key, found);
    assert forall i :: 0 <= i < |under| ==> under[i][0] == key && under[i][1..] == found[i];
    forall path | path != [] && path[0] == key && path[1..] in found ensures path in under {
      var i :| 0 <= i < |found| && found[i] == path[1..];
      assert under[i] == path;
    }
  }

  predicate Describes(node: Json, base: string, path: seq<string>, leaf: Leaf) {
    leaf.pointer == Extend(base, path) && LeafAt(node, path) == Some(leaf.value)
  }

  /** `out` lists the leaves of the node outside the keys of `todo`, once each; `paths` witnesses where they lie. */
  ghost predicate Lists(node: Json, todo: set<string>, base: string, out: seq<Leaf>, paths: seq<seq<string>>) {
    && |out| == |paths| && Distinct(paths)
    && (forall i :: 0 <= i < |out| ==> Describes(node, base, paths[i], out[i]))
    && (forall path :: path in paths <==> LeafAt(node, path).Some? && (path == [] || path[0] !in todo))
  }

  lemma ListsOneMore(fields: Fields, todo: set<string>, key: string, base: string,
                     out: seq<Leaf>, paths: seq<seq<string>>, sub: seq<Leaf>, found: seq<seq<string>>)
    requires Lists(Obj(fields), todo, base, out, paths) && key in todo && key in fields
    requires Lists(fields[key], {}, base + "/" + Escape(key), sub, found)
    ensures Lists(Obj(fields), todo - {key}, base, out + sub, paths + Under(key, found))
  {
    UnderOneMore(paths, key, found);
    var all := paths + Under(key, found);
    forall i | 0 <= i < |all| ensures Describes(Obj(fields), base, all[i], (out + sub)[i]) {
      if i >= |paths| {
        assert all[i][1..] == found[i - |paths|];
        assert Describes(fields[key], base + "/" + Escape(key), found[i - |paths|], sub[i - |paths|]);
      }
    }
  }

  /** The list without its witness: the leaves below the base and nothing else, no pointer twice. */
  ghost predicate ListsExactly(node: Json, base: string, out: seq<Leaf>) {
    && (forall leaf :: leaf in out <==> exists path :: Describes(node, base, path, leaf))
    && (forall i, j :: 0 <= i < j < |out| ==> out[i].pointer != out[j].pointer)
  }

  lemma ListedExactly(node: Json, base: string, out: seq<Leaf>, paths: seq<seq<string>>)
    requires Lists(node, {}, base, out, paths)
    ensures ListsExactly(node, base, out)
  {
    forall leaf, path | Describes(node, base, path, leaf) ensures leaf in out {
      assert path in paths;
      var i :| 0 <= i < |paths| && paths[i] == path;
      assert Describes(node, base, paths[i], out[i]) && out[i] in out;
    }
    forall i, j | 0 <= i < j < |out| ensures out[i].pointer != out[j].pointer {
      assert Describes(node, base, paths[i], out[i]) && Describes(node, base, paths[j], out[j]);
      if out[i].pointer == out[j].pointer { ExtendInjective(base, paths[i], paths[j]); }
    }
  }

  /** leaves: every leaf once, under its own pointer. */
  method ListLeaves(node: Json, base: string) returns (out: seq<Leaf>, ghost paths: seq<seq<string>>)
    ensures Lists(node, {}, base, out, paths)
    ensures ListsExactly(node, base, out)
    decreases node
  {
    if !node.Obj? {
      out, paths := [Leaf(base, node)], [[]];
      ListedExactly(node, base, out, paths);
      return;
    }
    out, paths := [], [];
    var todo := node.fields.Keys;
    while todo != {}
      invariant todo <= node.fields.Keys
      invariant Lists(node, todo, base, out, paths)
      decreases |todo|
    {
      var key :| key in todo;
      var sub, found := ListLeaves(node.fields[key], base + "/" + Escape(key));
      ListsOneMore(node.fields, todo, key, base, out, paths, sub, found);
      todo := todo - {key};
      out, paths := out + sub, paths + Under(key, found);
    }
    ListedExactly(node, base, out, paths);
  }

  lemma {:induction false} LeafIsValue(node: Json, path: seq<string>)
    ensures LeafAt(node, path).Some? ==> LeafAt(node, path).value == ValueAt(node, path) && !ValueAt(node, path).Obj?
    ensures Plain(ValueAt(node, path)) ==> LeafAt(node, path) == Some(ValueAt(node, path))
    decreases |path|
  {
    if path != [] && node.Obj? {
      NullBelow(path[1..]);
      LeafIsValue(Get(node.fields, path[0]), path[1..]);
    }
  }

  /** Reading a document at a leaf's own pointer gives the leaf's value, and no other leaf has that pointer. */
  lemma LeafReadsBack(node: Json, path: seq<string>, other: seq<string>)
    requires LeafAt(node, path).Some?
    ensures ValueAt(node, SegmentsOf(Extend("", path))) == LeafAt(node, path).value
    ensures LeafAt(node, other).Some? && Extend("", other) == Extend("", path) ==> other == path
  {
    SegmentsOfExtend("", path);
    assert SegmentsOf("") + path == path;
    LeafIsValue(node, path);
    if Extend("", other) == Extend("", path) {
      ExtendInjective("", other, path);
    }
  }

  /** A plain value that a merge changes at a path is a leaf of the patch at exactly that path. */
  lemma ChangedValueIsPatchLeaf(target: Json, patch: Json, path: seq<string>)
    requires Plain(ValueAt(Merged(target, patch), path))
    requires ValueAt(Merged(target, patch), path) != ValueAt(target, path)
    ensures LeafAt(patch, path) == Some(ValueAt(Merged(target, patch), path))
  {
    MergeFrame(target, patch, path);
    LeafIsValue(patch, path);
  }
}
