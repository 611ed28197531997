/**
 * The properties that restartDiff and readOnlyPointers reach, told without recursion: as walks down the schema, one
 * step per key, into a property of a node or into the entries of a map.
 */
module SchemaWalks {
  import opened GoStrings
  import opened Restart
  import opened Schema
  import ReadOnly

  /** How a walk came to a node: it starts at a section, and goes on into properties and map entries. */
  datatype Reached = Start | AsProperty | AsEntry

  function ReachedAt(start: Reached, entry: seq<bool>, i: nat): Reached
    requires i <= |entry|
  {
    if i == 0 then start else if entry[i - 1] then AsEntry else AsProperty
  }

  predicate StepsInto(node: Schema, isEntry: bool, key: string, next: Schema) {
    if isEntry then node.IsMap() && next == node.entries.item
    else key in node.Children() && next == node.Children()[key]
  }

  /** The nodes along a path; only a map that is a property without properties of its own is stepped through. */
  predicate IsWalk(start: Reached, nodes: seq<Schema>, entry: seq<bool>, path: seq<string>) {
    |nodes| == |path| + 1 && |entry| == |path|
    && forall i :: 0 <= i < |path| ==>
         && StepsInto(nodes[i], entry[i], path[i], nodes[i + 1])
         && (entry[i] ==> ReachedAt(start, entry, i).AsProperty? && !nodes[i].Nested())
  }

  lemma WalkTail(start: Reached, nodes: seq<Schema>, entry: seq<bool>, path: seq<string>)
    requires IsWalk(start, nodes, entry, path) && path != []
    ensures IsWalk(ReachedAt(start, entry, 1), nodes[1..], entry[1..], path[1..])
    ensures forall i :: 0 <= i < |path| ==>
              ReachedAt(ReachedAt(start, entry, 1), entry[1..], i) == ReachedAt(start, entry, i + 1)
  {
  }

  lemma ReachedTail(start: Reached, isEntry: bool, entry: seq<bool>, i: nat)
    requires i <= |entry|
    ensures ReachedAt(start, [isEntry] + entry, i + 1) ==
        ReachedAt(if isEntry then AsEntry else AsProperty, entry, i)
  {
  }

  lemma WalkHead(start: Reached, node: Schema, isEntry: bool, key: string, nodes: seq<Schema>, entry: seq<bool>,
      rest: seq<string>)
    requires |nodes| > 0 && StepsInto(node, isEntry, key, nodes[0])
    requires isEntry ==> start.AsProperty? && !node.Nested()
    requires IsWalk(if isEntry then AsEntry else AsProperty, nodes, entry, rest)
    ensures IsWalk(start, [node] + nodes, [isEntry] + entry, [key] + rest)
  {
    var (n, e, p) := ([node] + nodes, [isEntry] + entry, [key] + rest);
    forall i | 0 <= i < |p|
      ensures StepsInto(n[i], e[i], p[i], n[i + 1])
      ensures e[i] ==> ReachedAt(start, e, i).AsProperty? && !n[i].Nested()
    {
      if i > 0 {
        assert StepsInto(nodes[i - 1], entry[i - 1], rest[i - 1], nodes[i]);
        ReachedTail(start, isEntry, entry, i - 1);
      }
    }
  }

  // ----- Restart leaves -----

  /** A walk ends at a restart leaf: a flagged property that is neither section nor map, or a flagged plain entry. */
  predicate EndsAtRestart(start: Reached, nodes: seq<Schema>, entry: seq<bool>, path: seq<string>)
    requires |nodes| == |path| + 1 && |entry| == |path|
  {
    var leaf, reached := nodes[|path|], ReachedAt(start, entry, |path|);
    leaf.requiresRestart && !leaf.Nested() && (reached.AsEntry? || (reached.AsProperty? && !leaf.IsMap()))
  }

  function FlaggedFrom(start: Reached, node: Schema, path: seq<string>): Option<Schema> {
    match start
    case Start => FlaggedAt(node, path)
    case AsProperty => FlaggedBelow(node, path)
    case AsEntry => FlaggedEntry(node, path)
  }

  /** One step of the definition: into the entries of a plain map property, else into a property of the node. */
  lemma FlaggedStep(start: Reached, node: Schema, path: seq<string>)
    requires path != []
    ensures FlaggedFrom(start, node, path) ==
            if start.AsProperty? && !node.Nested() then
              if node.IsMap() then FlaggedFrom(AsEntry, node.entries.item, path[1..]) else None
            else if path[0] in node.Children() then FlaggedFrom(AsProperty, node.Children()[path[0]], path[1..])
            else None
  {
    assert node.Nested() ==> FlaggedBelow(node, path) == FlaggedAt(node, path);
    assert node.Nested() ==> FlaggedEntry(node, path) == FlaggedAt(node, path);
  }

  lemma {:induction false} WalkIsFlagged(start: Reached, nodes: seq<Schema>, entry: seq<bool>, path: seq<string>)
    requires IsWalk(start, nodes, entry, path) && EndsAtRestart(start, nodes, entry, path)
    ensures FlaggedFrom(start, nodes[0], path) == Some(nodes[|path|])
    decreases |path|
  {
    if path != [] {
      WalkTail(start, nodes, entry, path);
      FlaggedStep(start, nodes[0], path);
      assert ReachedAt(start, entry, 0) == start;
      WalkIsFlagged(ReachedAt(start, entry, 1), nodes[1..], entry[1..], path[1..]);
      assert StepsInto(nodes[0], entry[0], path[0], nodes[1]);
    }
  }

  lemma {:induction false} FlaggedIsWalk(start: Reached, node: Schema, path: seq<string>)
      returns (nodes: seq<Schema>, entry: seq<bool>)
    requires FlaggedFrom(start, node, path).Some?
    ensures IsWalk(start, nodes, entry, path) && EndsAtRestart(start, nodes, entry, path)
    ensures nodes[0] == node && nodes[|path|] == FlaggedFrom(start, node, path).value
    decreases |path|
  {
    if path == [] {
      assert FlaggedAt(node, []).None?;
      nodes, entry := [node], [];
    } else {
      var isEntry := start.AsProperty? && !node.Nested();
      FlaggedStep(start, node, path);
      var next := if isEntry then node.entries.item else node.Children()[path[0]];
      var below, more := FlaggedIsWalk(if isEntry then AsEntry else AsProperty, next, path[1..]);
      WalkHead(start, node, isEntry, path[0], below, more, path[1..]);
      ReachedTail(start, isEntry, more, |path| - 1);
      assert [path[0]] + path[1..] == path;
      nodes, entry := [node] + below, [isEntry] + more;
      assert nodes[|path|] == below[|path| - 1];
    }
  }

  /** The restart leaf at a path is the end of a walk along it, and every such walk ends there. */
  lemma FlaggedExactly(schema: Schema, path: seq<string>, leaf: Schema)
    ensures FlaggedAt(schema, path) == Some(leaf) <==>
            exists nodes, entry :: IsWalk(Start, nodes, entry, path) && EndsAtRestart(Start, nodes, entry, path)
              && nodes[0] == schema && nodes[|path|] == leaf
  {
    if FlaggedAt(schema, path) == Some(leaf) {
      var nodes, entry := FlaggedIsWalk(Start, schema, path);
    }
    forall nodes, entry | IsWalk(Start, nodes, entry, path) && EndsAtRestart(Start, nodes, entry, path)
      ensures FlaggedAt(nodes[0], path) == Some(nodes[|path|])
    {
      WalkIsFlagged(Start, nodes, entry, path);
    }
  }

  // ----- readOnly properties -----

  /** A walk ends at a readOnly property, and passes through none before it. */
  predicate EndsAtReadOnly(start: Reached, nodes: seq<Schema>, entry: seq<bool>, path: seq<string>)
    requires |nodes| == |path| + 1 && |entry| == |path|
  {
    && nodes[|path|].readOnly && ReachedAt(start, entry, |path|).AsProperty?
    && forall i :: 0 <= i < |path| && ReachedAt(start, entry, i).AsProperty? ==> !nodes[i].readOnly
  }

  predicate ReadOnlyFrom(start: Reached, node: Schema, path: seq<string>) {
    if start.AsProperty? then ReadOnly.ReadOnlyBelow(node, path) else ReadOnly.ReadOnlyAt(node, path)
  }

  lemma ReadOnlyStep(start: Reached, node: Schema, path: seq<string>)
    requires path != []
    ensures ReadOnlyFrom(start, node, path) <==>
            if start.AsProperty? && node.readOnly then false
            else if start.AsProperty? && !node.Nested() then
              node.IsMap() && ReadOnlyFrom(AsEntry, node.entries.item, path[1..])
            else path[0] in node.Children() && ReadOnlyFrom(AsProperty, node.Children()[path[0]], path[1..])
  {
    assert node.Nested() && !node.readOnly ==> ReadOnly.ReadOnlyBelow(node, path) == ReadOnly.ReadOnlyAt(node, path);
  }

  lemma {:induction false} WalkIsReadOnly(start: Reached, nodes: seq<Schema>, entry: seq<bool>, path: seq<string>)
    requires IsWalk(start, nodes, entry, path) && EndsAtReadOnly(start, nodes, entry, path)
    ensures ReadOnlyFrom(start, nodes[0], path)
    decreases |path|
  {
    if path != [] {
      WalkTail(start, nodes, entry, path);
      ReadOnlyStep(start, nodes[0], path);
      assert StepsInto(nodes[0], entry[0], path[0], nodes[1]);
      assert ReachedAt(start, entry, 0) == start;
      WalkIsReadOnly(ReachedAt(start, entry, 1), nodes[1..], entry[1..], path[1..]);
    }
  }

  lemma EndsHead(start: Reached, node: Schema, isEntry: bool, key: string, nodes: seq<Schema>, entry: seq<bool>,
      rest: seq<string>)
    requires |nodes| == |rest| + 1 && |entry| == |rest| && (start.AsProperty? ==> !node.readOnly)
    requires EndsAtReadOnly(if isEntry then AsEntry else AsProperty, nodes, entry, rest)
    ensures EndsAtReadOnly(start, [node] + nodes, [isEntry] + entry, [key] + rest)
  {
    ReachedTail(start, isEntry, entry, |rest|);
    forall i | 0 <= i <= |rest| && ReachedAt(start, [isEntry] + entry, i).AsProperty?
      ensures !([node] + nodes)[i].readOnly
    {
      if i > 0 { ReachedTail(start, isEntry, entry, i - 1); }
    }
  }

  lemma {:induction false} ReadOnlyIsWalk(start: Reached, node: Schema, path: seq<string>)
      returns (nodes: seq<Schema>, entry: seq<bool>)
    requires ReadOnlyFrom(start, node, path)
    ensures IsWalk(start, nodes, entry, path) && EndsAtReadOnly(start, nodes, entry, path) && nodes[0] == node
    decreases |path|
  {
    if path == [] {
      assert !ReadOnly.ReadOnlyAt(node, []);
      nodes, entry := [node], [];
    } else {
      var isEntry := start.AsProperty? && !node.Nested();
      ReadOnlyStep(start, node, path);
      var next := if isEntry then node.entries.item else node.Children()[path[0]];
      var below, more := ReadOnlyIsWalk(if isEntry then AsEntry else AsProperty, next, path[1..]);
      WalkHead(start, node, isEntry, path[0], below, more, path[1..]);
      EndsHead(start, node, isEntry, path[0], below, more, path[1..]);
      assert [path[0]] + path[1..] == path;
      nodes, entry := [node] + below, [isEntry] + more;
    }
  }

  /** A path names a readOnly property exactly when a walk along it ends at one and passes through none. */
  lemma ReadOnlyExactly(schema: Schema, path: seq<string>)
    ensures ReadOnly.ReadOnlyAt(schema, path) <==>
            exists nodes, entry :: IsWalk(Start, nodes, entry, path) && EndsAtReadOnly(Start, nodes, entry, path)
              && nodes[0] == schema
  {
    if ReadOnly.ReadOnlyAt(schema, path) {
      var nodes, entry := ReadOnlyIsWalk(Start, schema, path);
    }
    forall nodes, entry | IsWalk(Start, nodes, entry, path) && EndsAtReadOnly(Start, nodes, entry, path)
      ensures ReadOnly.ReadOnlyAt(nodes[0], path)
    {
      WalkIsReadOnly(Start, nodes, entry, path);
    }
  }
}
