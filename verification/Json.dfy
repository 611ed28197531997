/** Decoded JSON/YAML values and documents, as Go's `any` holds them after `normalize`. */
module Json {
  import opened GoStrings

  datatype Json =
    | Null
    | Bool(flag: bool)
    | Num(number: int)
    | Str(text: string)
    | Arr(items: seq<Json>)
    | Obj(fields: Fields)

  type Fields = map<string, Json>

  /** A Go map index: nil when the key is absent. */
  function Get(m: Fields, key: string): Json {
    if key in m then m[key] else Null
  }

  /** A Go map lookup that tells an absent key from a nil value. */
  function Look<T>(m: map<string, T>, key: string): Option<T> {
    if key in m then Some(m[key]) else None
  }

  /** `object, _ := value.(map[string]any)`: the empty map for every other value. */
  function FieldsOf(value: Json): Fields {
    if value.Obj? then value.fields else map[]
  }

  /** The value at a path of keys, Null as soon as the path leaves the document. */
  function ValueAt(node: Json, path: seq<string>): Json
    decreases |path|
  {
    if path == [] then node
    else if !node.Obj? then Null
    else ValueAt(Get(node.fields, path[0]), path[1..])
  }

  /** A value that is neither null nor an object. */
  predicate Plain(value: Json) {
    !value.Null? && !value.Obj?
  }

  lemma FieldsEqual(a: Fields, b: Fields)
    requires forall key :: Look(a, key) == Look(b, key)
    ensures a == b
  {
    forall key ensures key in a <==> key in b {
      assert Look(a, key) == Look(b, key);
    }
    forall key | key in a ensures a[key] == b[key] {
      assert Look(a, key) == Look(b, key);
    }
  }

  lemma {:induction false} ValueAtConcat(node: Json, head: seq<string>, tail: seq<string>)
    ensures ValueAt(node, head + tail) == ValueAt(ValueAt(node, head), tail)
    decreases |head|
  {
    if head == [] {
      assert head + tail == tail;
    } else if node.Obj? {
      assert (head + tail)[1..] == head[1..] + tail;
      ValueAtConcat(Get(node.fields, head[0]), head[1..], tail);
    } else {
      NullBelow(tail);
    }
  }

  lemma NullBelow(path: seq<string>)
    ensures ValueAt(Null, path) == Null
  {
  }
}
