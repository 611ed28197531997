/** The backend's own rules, asked leaf by leaf (internal/configengine/engine.go, hookErrors). */
module Hooks {
  import opened GoStrings
  import opened Json
  import opened Leaves
  import opened Pointer

  /** One failing rule at a pointer. */
  datatype Problem = Problem(pointer: string, rule: string)

  /** Answers the failing rules of one leaf: pointer, value, configuration name, filled document. */
  type Hook = (string, Json, string, Fields) -> seq<Problem>

  /** No leaf of the scope, read in the document, breaks the hook. */
  ghost predicate Passes(hook: Hook, name: string, document: Fields, scope: Fields) {
    forall path :: LeafAt(Obj(scope), path).Some? && !LeafAt(Obj(scope), path).value.Null? ==>
      hook(Extend("", path), ValueAt(Obj(document), path), name, document) == []
  }

  ghost predicate PassesLeaf(hook: Hook, name: string, document: Fields, path: seq<string>, value: Json) {
    value.Null? || hook(Extend("", path), ValueAt(Obj(document), path), name, document) == []
  }

  /** hookErrors: the loop over the scope's leaves, both hooks per leaf; null leaves are skipped. */
  method HookErrors(name: string, document: Fields, scope: Fields, writable: Hook, reachable: Hook)
      returns (errs: seq<Problem>)
    ensures errs == [] <==> Passes(writable, name, document, scope) && Passes(reachable, name, document, scope)
  {
    var list, paths := ListLeaves(Obj(scope), "");
    errs := [];
    for i := 0 to |list|
      invariant errs == [] <==> forall j :: 0 <= j < i ==>
        PassesLeaf(writable, name, document, paths[j], list[j].value)
            && PassesLeaf(reachable, name, document, paths[j], list[j].value)
    {
      var broken := LeafErrors(list[i], paths[i], name, document, Obj(scope), writable, reachable);
      errs := errs + broken;
    }
    ListedPass(writable, name, document, scope, list, paths);
    ListedPass(reachable, name, document, scope, list, paths);
  }

  method LeafErrors(leaf: Leaf, ghost path: seq<string>, name: string, document: Fields, ghost scope: Json,
      writable: Hook, reachable: Hook)
    returns (errs: seq<Problem>)
    requires Describes(scope, "", path, leaf)
    ensures errs == [] <==>
            PassesLeaf(writable, name, document, path, leaf.value)
                && PassesLeaf(reachable, name, document, path, leaf.value)
  {
    if leaf.value.Null? {
      return [];
    }
    var value := ReadAt(Obj(document), leaf.pointer);
    SegmentsOfExtend("", path);
    assert SegmentsOf("") + path == path;
    errs := writable(leaf.pointer, value, name, document) + reachable(leaf.pointer, value, name, document);
  }

  lemma ListedPass(hook: Hook, name: string, document: Fields, scope: Fields, list: seq<Leaf>, paths: seq<seq<string>>)
    requires Lists(Obj(scope), {}, "", list, paths)
    ensures Passes(hook, name, document, scope) <==> forall j :: 0 <= j < |list| ==>
        PassesLeaf(hook, name, document, paths[j], list[j].value)
  {
    forall path | LeafAt(Obj(scope), path).Some? ensures exists j :: 0 <= j < |paths| && paths[j] == path {
      assert path in paths;
    }
    assert forall j :: 0 <= j < |list| ==> Describes(Obj(scope), "", paths[j], list[j]);
  }
}
