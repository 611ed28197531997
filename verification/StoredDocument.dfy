/** Reading and replacing the document sections of a machine (internal/machines/hostsyml.go). */
module StoredDocument {
  import opened GoStrings
  import opened OrderedJson

  // ----- The decoder -----

  function Prepend<T>(done: seq<T>, r: Read<seq<T>>): Read<seq<T>> {
    match r
    case Err => Err
    case Ok(more, rest) => Ok(done + more, rest)
  }

  /** decoder.More: something other than a closing bracket follows. */
  predicate More(s: string) {
    var t := SkipSpace(s);
    t != "" && t[0] != ']' && t[0] != '}'
  }

  class Decoder {
    var rest: string

    constructor (raw: string)
      ensures rest == raw
    {
      rest := raw;
    }

    /** decodeOrderedJSON: consumes one value, or fails. */
    method Value() returns (r: Option<Tree>)
      modifies this
      ensures match ReadValue(old(rest)) { case Ok(v, end) => r == Some(v) && rest == end case Err => r == None }
      decreases |rest|, 1
    {
      var t := SkipSpace(rest);
      if t == "" {
        return None;
      }
      if t[0] == '{' {
        rest := t[1..];
        var members := Members();
        return if members.Some? then Some(Map(members.value)) else None;
      }
      if t[0] == '[' {
        rest := t[1..];
        var items := Items();
        return if items.Some? then Some(List(items.value)) else None;
      }
      match ReadValue(rest) {
        case Err => return None;
        case Ok(v, end) =>
          rest := end;
          return Some(v);
      }
    }

    /** The object case: a loop while more members follow, then the closing brace. */
    method Members() returns (r: Option<seq<Member>>)
      modifies this
      ensures match ReadMembers(old(rest), true) { case Ok(members, end) => r == Some(members)
          && rest == end case Err => r == None }
      decreases |rest|, 0
    {
      var members, first := [], true;
      ghost var start := rest;
      PrependNothing(ReadMembers(start, true));
      while More(rest)
        invariant |rest| <= |start|
        invariant Prepend(members, ReadMembers(rest, first)) == ReadMembers(start, true)
        decreases |rest|
      {
        var next := Separator(rest, first);
        if next.None? {
          return None;
        }
        match ReadKey(next.value) {
          case Err => return None;
          case Ok(key, afterKey) =>
            rest := afterKey;
            var value := Value();
            if value.None? {
              return None;
            }
            MembersTurn(members, Member(key, value.value), ReadMembers(rest, false));
            members, first := members + [Member(key, value.value)], false;
        }
      }
      var t := SkipSpace(rest);
      if t == "" || t[0] != '}' {
        NotAMember(rest, first);
        return None;
      }
      rest := t[1..];
      assert members + [] == members;
      return Some(members);
    }

    /** The array case. */
    method Items() returns (r: Option<seq<Tree>>)
      modifies this
      ensures match ReadItems(old(rest), true) { case Ok(items, end) => r == Some(items)
          && rest == end case Err => r == None }
      decreases |rest|, 2
    {
      var items, first := [], true;
      ghost var start := rest;
      PrependNothing(ReadItems(start, true));
      while More(rest)
        invariant |rest| <= |start|
        invariant Prepend(items, ReadItems(rest, first)) == ReadItems(start, true)
        decreases |rest|
      {
        var next := Separator(rest, first);
        if next.None? {
          return None;
        }
        rest := next.value;
        var value := Value();
        if value.None? {
          return None;
        }
        MembersTurn(items, value.value, ReadItems(rest, false));
        items, first := items + [value.value], false;
      }
      var t := SkipSpace(rest);
      if t == "" || t[0] != ']' {
        NotAnItem(rest, first);
        return None;
      }
      rest := t[1..];
      assert items + [] == items;
      return Some(items);
    }
  }

  lemma PrependNothing<T>(r: Read<seq<T>>)
    ensures Prepend([], r) == r
  {
    if r.Ok? {
      assert [] + r.value == r.value;
    }
  }

  lemma MembersTurn<T>(done: seq<T>, one: T, more: Read<seq<T>>)
    ensures Prepend(done, Prepend([one], more)) == Prepend(done + [one], more)
  {
    if more.Ok? {
      assert done + ([one] + more.value) == (done + [one]) + more.value;
    }
  }

  lemma NotAMember(s: string, first: bool)
    requires SkipSpace(s) == "" || SkipSpace(s)[0] == ']'
    ensures ReadMembers(s, first).Err?
  {
  }

  lemma NotAnItem(s: string, first: bool)
    requires SkipSpace(s) == "" || SkipSpace(s)[0] == '}'
    ensures ReadItems(s, first).Err?
  {
    if first && SkipSpace(s) != "" {
      var t := SkipSpace(s);
      assert SkipSpace(t) == t;
      assert CountDigits(t) == 0;
    }
  }

  // ----- The sections of the stored configuration -----

  const SECTIONS: seq<string> := ["settings", "zones", "networks", "disks", "provisioner", "metadata"]
  const BOOKKEEPING: set<string> :=
      {"provisioner_state", "pending_changes", "guest_info", "snapshots", "host_hooks_confirmed"}

  /** The top-level keys of the document; a repeated key counts with its last value. */
  function Incoming(members: seq<Member>): map<string, Tree> {
    if members == [] then map[]
        else Incoming(members[..|members| - 1])[members[|members| - 1].key := members[|members| - 1].value]
  }

  /** Every key is a document section, and every section given a value has its shape. */
  predicate WellShaped(members: seq<Member>) {
    && (forall i :: 0 <= i < |members| ==> members[i].key in SECTIONS)
    && var incoming := Incoming(members);
       forall key :: key in incoming ==> ShapeOk(key, incoming[key])
  }

  /** StoreDocumentYAML's loop over the document sections. */
  function Stored(sections: map<string, string>, names: seq<string>, incoming: map<string, Tree>): map<string, string>
    decreases |names|
  {
    if names == [] then sections
    else
      var name, earlier := names[|names| - 1], Stored(sections, names[..|names| - 1], incoming);
      if name in incoming then earlier[name := Print(incoming[name])] else earlier - {name}
  }

  /**
   * StoreDocumentYAML after parsing: refused with nothing stored, or every section replaced. `preflight` stands for
   * the device checks.
   */
  method StoreDocument(sections: map<string, string>, root: Tree, preflight: map<string, Tree> -> bool)
      returns (stored: Option<map<string, string>>)
    ensures stored.Some? <==> root.Map? && WellShaped(root.members) && preflight(Incoming(root.members))
    ensures stored.Some? ==> stored.value == Stored(sections, SECTIONS, Incoming(root.members))
  {
    if !root.Map? {
      return None;
    }
    var incoming := Collect(root.members);
    if incoming.None? {
      return None;
    }
    IncomingKeys(root.members);
    var shaped := ShapesOk(SECTIONS, incoming.value);
    if !shaped || !preflight(incoming.value) {
      return None;
    }
    var out := StoreSections(sections, SECTIONS, incoming.value);
    return Some(out);
  }

  /** The loop over the root's keys: bookkeeping and unknown keys are refused. */
  method Collect(members: seq<Member>) returns (incoming: Option<map<string, Tree>>)
    ensures incoming.Some? <==> forall i :: 0 <= i < |members| ==> members[i].key in SECTIONS
    ensures incoming.Some? ==> incoming.value == Incoming(members)
  {
    var out: map<string, Tree> := map[];
    for i := 0 to |members|
      invariant out == Incoming(members[..i])
      invariant forall j :: 0 <= j < i ==> members[j].key in SECTIONS
    {
      assert members[..i + 1][..i] == members[..i];
      if members[i].key in BOOKKEEPING {
        BookkeepingIsNoSection(members[i].key);
        return None;
      }
      if members[i].key !in SECTIONS {
        return None;
      }
      out := out[members[i].key := members[i].value];
    }
    assert members[..|members|] == members;
    return Some(out);
  }

  method ShapesOk(names: seq<string>, incoming: map<string, Tree>) returns (ok: bool)
    ensures ok <==> forall i :: 0 <= i < |names| && names[i] in incoming ==> ShapeOk(names[i], incoming[names[i]])
  {
    for i := 0 to |names|
      invariant forall j :: 0 <= j < i && names[j] in incoming ==> ShapeOk(names[j], incoming[names[j]])
    {
      if names[i] in incoming && !ShapeOk(names[i], incoming[names[i]]) {
        return false;
      }
    }
    return true;
  }

  /** The loop that replaces each document section, or deletes it. */
  method StoreSections(sections: map<string, string>, names: seq<string>, incoming: map<string, Tree>)
      returns (out: map<string, string>)
    ensures out == Stored(sections, names, incoming)
  {
    out := sections;
    for i := 0 to |names|
      invariant out == Stored(sections, names[..i], incoming)
    {
      assert names[..i + 1][..i] == names[..i];
      if names[i] in incoming {
        var raw := Encode(incoming[names[i]]);
        out := out[names[i] := raw];
      } else {
        out := out - {names[i]};
      }
    }
    assert names[..|names|] == names;
  }

  predicate ShapeOk(key: string, value: Tree) {
    value.Nil? || if key == "networks" then value.List? else value.Map?
  }

  lemma {:induction false} IncomingKeys(members: seq<Member>)
    ensures forall key :: key in Incoming(members) ==> exists i :: 0 <= i < |members| && members[i].key == key
    decreases |members|
  {
    if members != [] {
      var earlier := members[..|members| - 1];
      IncomingKeys(earlier);
      forall key | key in Incoming(members) ensures exists i :: 0 <= i < |members| && members[i].key == key {
        if key != members[|members| - 1].key {
          assert key in Incoming(earlier);
          var i :| 0 <= i < |earlier| && earlier[i].key == key;
          assert members[i].key == key;
        }
      }
    }
  }

  lemma BookkeepingIsNoSection(key: string)
    requires key in BOOKKEEPING
    ensures key !in SECTIONS
  {
  }

  /** DocumentYAML: the stored sections decoded, in the fixed section order; None when one does not decode. */
  function Document(sections: map<string, string>, names: seq<string>): Option<seq<Member>>
    decreases |names|
  {
    if names == [] then Some([])
    else
      var name := names[|names| - 1];
      match Document(sections, names[..|names| - 1])
      case None => None
      case Some(earlier) =>
        if name !in sections then Some(earlier)
        else match ReadValue(sections[name])
          case Err => None
          case Ok(value, _) => Some(earlier + [Member(name, value)])
  }

  method ReadDocument(sections: map<string, string>) returns (document: Option<seq<Member>>)
    ensures document == Document(sections, SECTIONS)
  {
    var members := [];
    for i := 0 to |SECTIONS|
      invariant Document(sections, SECTIONS[..i]) == Some(members)
    {
      assert SECTIONS[..i + 1][..i] == SECTIONS[..i];
      if SECTIONS[i] in sections {
        var decoder := new Decoder(sections[SECTIONS[i]]);
        var value := decoder.Value();
        if value.None? {
          DocumentFails(sections, SECTIONS, i + 1);
          return None;
        }
        members := members + [Member(SECTIONS[i], value.value)];
      }
    }
    assert SECTIONS[..|SECTIONS|] == SECTIONS;
    return Some(members);
  }

  lemma {:induction false} DocumentFails(sections: map<string, string>, names: seq<string>, n: nat)
    requires n <= |names| && Document(sections, names[..n]).None?
    ensures Document(sections, names).None?
    decreases |names|
  {
    if n == |names| {
      assert names[..n] == names;
    } else {
      assert names[..|names| - 1][..n] == names[..n];
      DocumentFails(sections, names[..|names| - 1], n);
    }
  }

  /** A document is read exactly when every stored section decodes. */
  lemma {:induction false} DocumentExactly(sections: map<string, string>, names: seq<string>)
    ensures Document(sections, names).Some? <==>
        forall i :: 0 <= i < |names| && names[i] in sections ==> ReadValue(sections[names[i]]).Ok?
    decreases |names|
  {
    if names != [] {
      DocumentExactly(sections, names[..|names| - 1]);
      assert names == names[..|names| - 1] + [names[|names| - 1]];
    }
  }

  // ----- Store, then read -----

  /** The given sections in the fixed order, absent ones left out. */
  function Given(names: seq<string>, incoming: map<string, Tree>): seq<Member>
    decreases |names|
  {
    if names == [] then []
    else
      var name, earlier := names[|names| - 1], Given(names[..|names| - 1], incoming);
      if name in incoming then earlier + [Member(name, incoming[name])] else earlier
  }

  lemma {:induction false} StoredAt(sections: map<string, string>, names: seq<string>, incoming: map<string, Tree>,
      key: string)
    ensures key !in names ==> (key in Stored(sections, names, incoming) <==> key in sections)
                              && (key in sections ==> Stored(sections, names, incoming)[key] == sections[key])
    ensures key in names ==> (key in Stored(sections, names, incoming) <==> key in incoming)
                             && (key in incoming ==> Stored(sections, names, incoming)[key] == Print(incoming[key]))
    decreases |names|
  {
    if names != [] {
      StoredAt(sections, names[..|names| - 1], incoming, key);
      assert names == names[..|names| - 1] + [names[|names| - 1]];
    }
  }

  lemma {:induction false} DocumentOfStored(stored: map<string, string>, names: seq<string>, incoming: map<string,
      Tree>)
    requires forall i :: 0 <= i < |names| ==> (names[i] in stored <==> names[i] in incoming)
    requires forall i :: 0 <= i < |names| && names[i] in incoming ==>
        stored[names[i]] == Print(incoming[names[i]]) && Printable(incoming[names[i]])
    ensures Document(stored, names) == Some(Given(names, incoming))
    decreases |names|
  {
    if names != [] {
      var last := names[|names| - 1];
      DocumentOfStored(stored, names[..|names| - 1], incoming);
      if last in incoming {
        PrintThenRead(incoming[last], "");
        assert Print(incoming[last]) + "" == Print(incoming[last]);
      }
    }
  }

  lemma {:induction false} IncomingPrintable(members: seq<Member>)
    requires forall i :: 0 <= i < |members| ==> Printable(members[i].value)
    ensures forall key :: key in Incoming(members) ==> Printable(Incoming(members)[key])
    decreases |members|
  {
    if members != [] {
      IncomingPrintable(members[..|members| - 1]);
    }
  }

  // ----- The same, member by member -----

  /** The member is the last one with its key, which is the one that counts. */
  predicate IsLast(members: seq<Member>, key: string, i: nat) {
    i < |members| && members[i].key == key && forall j :: i < j < |members| ==> members[j].key != key
  }

  predicate Named(members: seq<Member>, key: string) {
    exists i :: 0 <= i < |members| && members[i].key == key
  }

  lemma {:induction false} IncomingIsLast(members: seq<Member>, key: string, i: nat)
    requires IsLast(members, key, i)
    ensures key in Incoming(members) && Incoming(members)[key] == members[i].value
    decreases |members|
  {
    if i < |members| - 1 {
      assert members[|members| - 1].key != key;
      IncomingIsLast(members[..|members| - 1], key, i);
    }
  }

  lemma NamedExactly(members: seq<Member>, key: string)
    ensures key in Incoming(members) <==> Named(members, key)
  {
    if Named(members, key) {
      LastExists(members, key);
      var i: nat :| IsLast(members, key, i);
      IncomingIsLast(members, key, i);
    }
    IncomingKeys(members);
  }

  lemma {:induction false} LastExists(members: seq<Member>, key: string)
    requires Named(members, key)
    ensures exists i: nat :: IsLast(members, key, i)
    decreases |members|
  {
    var earlier := members[..|members| - 1];
    if members[|members| - 1].key == key {
      assert IsLast(members, key, |members| - 1);
    } else {
      var i :| 0 <= i < |members| && members[i].key == key;
      assert earlier[i].key == key;
      LastExists(earlier, key);
      var j: nat :| IsLast(earlier, key, j);
      assert IsLast(members, key, j);
    }
  }

  /** Which values a section takes: null, a list for the networks, a mapping for every other section. */
  predicate TakesValue(key: string, value: Tree) {
    value.Nil? || (value.List? && key == "networks") || (value.Map? && key != "networks")
  }

  /** Which documents have an accepted shape. */
  lemma WellShapedExactly(members: seq<Member>)
    ensures WellShaped(members) <==>
            && (forall i :: 0 <= i < |members| ==> members[i].key in SECTIONS)
            && (forall i: nat :: i < |members| && IsLast(members, members[i].key, i) ==>
                  TakesValue(members[i].key, members[i].value))
  {
    var incoming := Incoming(members);
    forall i: nat | i < |members| && IsLast(members, members[i].key, i)
      ensures members[i].key in incoming && incoming[members[i].key] == members[i].value
    {
      IncomingIsLast(members, members[i].key, i);
    }
    forall key | key in incoming
      ensures exists i: nat ::
                i < |members| && IsLast(members, key, i) && members[i].key == key && members[i].value == incoming[key]
    {
      NamedExactly(members, key);
      LastExists(members, key);
      var i: nat :| IsLast(members, key, i);
      IncomingIsLast(members, key, i);
    }
    assert forall key, value :: ShapeOk(key, value) == TakesValue(key, value);
  }

  /** The given sections come in the order of the names, each once. */
  predicate InOrder(names: seq<string>, document: seq<Member>) {
    forall m, n :: 0 <= m < n < |document| ==> Precedes(names, document[m].key, document[n].key)
  }

  predicate Precedes(names: seq<string>, one: string, other: string) {
    exists a, b :: 0 <= a < b < |names| && names[a] == one && names[b] == other
  }

  lemma {:induction false} GivenInOrder(names: seq<string>, incoming: map<string, Tree>)
    ensures InOrder(names, Given(names, incoming))
    ensures forall m :: 0 <= m < |Given(names, incoming)| ==> Given(names, incoming)[m].key in names
    decreases |names|
  {
    if names != [] {
      var earlier, last := names[..|names| - 1], names[|names| - 1];
      GivenInOrder(earlier, incoming);
      var document, before := Given(names, incoming), Given(earlier, incoming);
      forall m, n | 0 <= m < n < |document| ensures Precedes(names, document[m].key, document[n].key) {
        if n < |before| {
          assert Precedes(earlier, before[m].key, before[n].key);
          var a, b :| 0 <= a < b < |earlier| && earlier[a] == before[m].key && earlier[b] == before[n].key;
          assert names[a] == document[m].key && names[b] == document[n].key;
        } else {
          var a :| 0 <= a < |earlier| && earlier[a] == before[m].key;
          assert names[a] == document[m].key && names[|names| - 1] == document[n].key;
        }
      }
    }
  }

  lemma {:induction false} GivenHas(names: seq<string>, incoming: map<string, Tree>, member: Member)
    ensures member in Given(names, incoming) <==>
        member.key in names && member.key in incoming && member.value == incoming[member.key]
    decreases |names|
  {
    if names != [] {
      GivenHas(names[..|names| - 1], incoming, member);
      assert names == names[..|names| - 1] + [names[|names| - 1]];
    }
  }

  /** A document names a section with this value, and with no other. */
  predicate Holds(document: seq<Member>, key: string, value: Tree) {
    Member(key, value) in document && forall member :: member in document && member.key == key ==> member.value == value
  }

  /**
   * Storing a document and reading it back, key by key. A section that the document names is read back once, in the
   * fixed order, with the value of the last member of that name, and that is what its stored bytes read as. A section
   * it does not name is neither stored nor read back, and the bytes of every other key are what they were.
   */
  lemma StoreThenRead(sections: map<string, string>, members: seq<Member>, key: string)
    requires forall i :: 0 <= i < |members| ==> members[i].key in SECTIONS && Printable(members[i].value)
    ensures var stored := Stored(sections, SECTIONS, Incoming(members));
            && Document(stored, SECTIONS).Some?
            && InOrder(SECTIONS, Document(stored, SECTIONS).value)
            && (forall i: nat :: IsLast(members, key, i) ==>
                  && key in stored && ReadValue(stored[key]) == Ok(members[i].value, "")
                  && Holds(Document(stored, SECTIONS).value, key, members[i].value))
            && (key in SECTIONS && !Named(members, key) ==>
                  key !in stored && !Named(Document(stored, SECTIONS).value, key))
            && (key !in SECTIONS ==>
                  (key in stored <==> key in sections) && (key in sections ==> stored[key] == sections[key]))
  {
    var incoming := Incoming(members);
    var stored := Stored(sections, SECTIONS, incoming);
    IncomingPrintable(members);
    forall name
      ensures name in SECTIONS ==> (name in stored <==> name in incoming)
      ensures name in SECTIONS && name in incoming ==> stored[name] == Print(incoming[name])
    {
      StoredAt(sections, SECTIONS, incoming, name);
    }
    DocumentOfStored(stored, SECTIONS, incoming);
    GivenInOrder(SECTIONS, incoming);
    NamedExactly(members, key);
    forall i: nat | IsLast(members, key, i) ensures key in incoming && incoming[key] == members[i].value {
      IncomingIsLast(members, key, i);
    }
    forall member ensures member in Given(SECTIONS, incoming) <==>
        member.key in SECTIONS && member.key in incoming && member.value == incoming[member.key]
    {
      GivenHas(SECTIONS, incoming, member);
    }
    StoredAt(sections, SECTIONS, incoming, key);
    if key in incoming {
      PrintThenRead(incoming[key], "");
      assert Print(incoming[key]) + "" == Print(incoming[key]);
      assert Member(key, incoming[key]) in Given(SECTIONS, incoming);
    }
    if i :| 0 <= i < |Given(SECTIONS, incoming)| && Given(SECTIONS, incoming)[i].key == key {
      assert Given(SECTIONS, incoming)[i] in Given(SECTIONS, incoming);
    }
  }
}
