/** Which leaves the agent's rules look at, by their paths, and exactly when they refuse one. */
module RuleAnswers {
  import opened GoStrings
  import opened Hooks
  import opened Json
  import opened Pointer
  import opened Rules

  // ----- Pointers by their paths -----

  lemma {:induction false} ExtendAppends(base: string, path: seq<string>)
    ensures Extend(base, path) == base + Extend("", path)
    decreases |path|
  {
    if path != [] {
      ExtendAppends(base + "/" + Escape(path[0]), path[1..]);
      ExtendAppends("" + "/" + Escape(path[0]), path[1..]);
    }
  }

  /** The pointer of a path with a first key: a slash, that key escaped, and the pointer of the others. */
  lemma PointerHead(path: seq<string>)
    requires path != []
    ensures Extend("", path) == ['/'] + (Escape(path[0]) + Extend("", path[1..]))
  {
    ExtendAppends("" + "/" + Escape(path[0]), path[1..]);
  }

  predicate Starts(path: seq<string>, keys: seq<string>) {
    |keys| < |path| && path[..|keys|] == keys
  }

  lemma SegmentsOfPath(path: seq<string>)
    ensures SegmentsOf(Extend("", path)) == path
  {
    SegmentsOfExtend("", path);
    assert SegmentsOf("") + path == path;
  }

  /** A text after one more slash adds its own segments. */
  lemma SegmentsJoin(base: string, rest: string)
    ensures SegmentsOf(base + ['/'] + rest) == SegmentsOf(base) + UnescapeAll(Split(rest, '/'))
  {
    SplitConcat(base, '/', rest);
    if base == "" { assert Split(base, '/') == [""]; }
    assert (Split(base, '/') + Split(rest, '/'))[1..] == Split(base, '/')[1..] + Split(rest, '/');
    UnescapeAllConcat(Split(base, '/')[1..], Split(rest, '/'));
  }

  lemma GoesOn(path: seq<string>, keys: seq<string>)
    requires Starts(path, keys)
    ensures Extend("", path) ==
        Extend("", keys) + (['/'] + (Escape(path[|keys|]) + Extend("", path[|keys| + 1..])))
  {
    var rest := path[|keys|..];
    assert path == keys + rest && rest[1..] == path[|keys| + 1..];
    ExtendConcat("", keys, rest);
    ExtendAppends(Extend("", keys), rest);
    PointerHead(rest);
  }

  lemma StartsWith(path: seq<string>, keys: seq<string>, rest: string)
    requires Extend("", path) == Extend("", keys) + ['/'] + rest
    ensures Starts(path, keys)
  {
    SegmentsOfPath(path);
    SegmentsOfPath(keys);
    SegmentsJoin(Extend("", keys), rest);
    assert path == keys + UnescapeAll(Split(rest, '/'));
  }

  /** A pointer starts with the pointer of some keys and a slash exactly when its path goes on from those keys. */
  lemma PrefixIsPath(path: seq<string>, keys: seq<string>)
    ensures HasPrefix(Extend("", path), Extend("", keys) + "/") <==> Starts(path, keys)
  {
    var pointer, base := Extend("", path), Extend("", keys);
    if Starts(path, keys) {
      GoesOn(path, keys);
      assert pointer[..|base| + 1] == base + "/";
    }
    if HasPrefix(pointer, base + "/") {
      assert pointer == base + ['/'] + pointer[|base| + 1..];
      StartsWith(path, keys, pointer[|base| + 1..]);
    }
  }

  lemma EndsWith(path: seq<string>, key: string, before: string)
    requires SafeKey(key) && Extend("", path) == before + ['/'] + key
    ensures path != [] && path[|path| - 1] == key
  {
    EscapeSafe(key);
    UnescapeEscape(key);
    SegmentsOfPath(path);
    SegmentsJoin(before, key);
    SplitWhole(key, '/');
    assert path == SegmentsOf(before) + [key];
  }

  lemma EndsIn(path: seq<string>)
    requires path != []
    ensures Extend("", path) == Extend("", path[..|path| - 1]) + (['/'] + Escape(path[|path| - 1]))
  {
    var before, last := path[..|path| - 1], path[|path| - 1];
    assert path == before + [last];
    ExtendConcat("", before, [last]);
    ExtendAppends(Extend("", before), [last]);
    PointerHead([last]);
  }

  lemma SuffixOf(text: string, suffix: string)
    ensures HasSuffix(text, suffix) <==> exists before :: text == before + suffix
  {
    if HasSuffix(text, suffix) {
      assert text == text[..|text| - |suffix|] + suffix;
    }
  }

  /** A pointer ends with a slash and a key that needs no escaping exactly when that is its path's last key. */
  lemma SuffixIsLast(path: seq<string>, key: string)
    requires SafeKey(key)
    ensures HasSuffix(Extend("", path), ['/'] + key) <==> path != [] && path[|path| - 1] == key
  {
    SuffixOf(Extend("", path), ['/'] + key);
    if path != [] && path[|path| - 1] == key {
      EscapeSafe(key);
      EndsIn(path);
    }
    if before :| Extend("", path) == before + (['/'] + key) {
      assert Extend("", path) == before + ['/'] + key;
      EndsWith(path, key, before);
    }
  }

  lemma {:induction false} CutNone(s: string, sep: char)
    requires sep !in s
    ensures CutBefore(s, sep) == s && CutAfter(s, sep) == ""
  {
    if s != "" {
      CutNone(s[1..], sep);
      assert [s[0]] + s[1..] == s;
    }
  }

  // ----- The storage-path rule at every leaf -----

  lemma BaseOfKind(kind: Kind)
    requires SafeKind(kind)
    ensures Extend("", [kind.section, kind.key]) == kind.Base()
  {
    EscapeSafe(kind.section);
    EscapeSafe(kind.key);
    PointerHead([kind.section, kind.key]);
    assert [kind.section, kind.key][1..] == [kind.key];
    PointerHead([kind.key]);
  }

  /** Cutting an escaped key and the pointer of what follows it. */
  lemma CutsKey(id: string, rest: seq<string>)
    ensures var text := Escape(id) + Extend("", rest);
            && CutBefore(text, '/') == Escape(id)
            && ['/'] + CutAfter(text, '/') == if rest == [] then "/" else Extend("", rest)
  {
    EscapeHasNoSlash(id);
    if rest == [] {
      CutNone(Escape(id), '/');
      assert Escape(id) + Extend("", rest) == Escape(id);
    } else {
      PointerHead(rest);
      var more := Escape(rest[0]) + Extend("", rest[1..]);
      CutAppend(Escape(id), '/', more);
      assert Escape(id) + (['/'] + more) == Escape(id) + ['/'] + more;
    }
  }

  /** The id and the field that the rule reads out of a leaf's pointer. */
  lemma RuleReads(kind: Kind, path: seq<string>)
    requires SafeKind(kind) && Starts(path, [kind.section, kind.key])
    ensures var rest := TrimPrefix(Extend("", path), kind.Base() + "/");
            && HasPrefix(Extend("", path), kind.Base() + "/")
            && CutBefore(rest, '/') == Escape(path[2])
            && ['/'] + CutAfter(rest, '/') == if path[3..] == [] then "/" else Extend("", path[3..])
  {
    BaseOfKind(kind);
    GoesOn(path, [kind.section, kind.key]);
    CutsKey(path[2], path[3..]);
    TrimsPrefix(Extend("", path), kind.Base(), Escape(path[2]) + Extend("", path[3..]));
  }

  lemma TrimsPrefix(pointer: string, base: string, rest: string)
    requires pointer == base + (['/'] + rest)
    ensures HasPrefix(pointer, base + "/") && TrimPrefix(pointer, base + "/") == rest
  {
  }

  lemma FieldIs(rest: seq<string>, field: string)
    requires SafeKey(field)
    ensures Extend("", rest) == ['/'] + field <==> rest == [field]
  {
    EscapeSafe(field);
    PointerHead([field]);
    assert Extend("", [field]) == ['/'] + field;
    if Extend("", rest) == ['/'] + field { ExtendInjective("", rest, [field]); }
  }

  lemma BuiltinIs(id: string)
    ensures Escape(id) == BUILTIN <==> id == BUILTIN
  {
    SafeText(BUILTIN);
    EscapeSafe(BUILTIN);
    if Escape(id) == BUILTIN {
      UnescapeEscape(id);
      UnescapeEscape(BUILTIN);
    }
  }

  /** The fields of an entry that have a rule. */
  predicate HasRule(rest: seq<string>) {
    rest == ["path"] || rest == ["default"]
  }

  lemma FieldHasRule(rest: seq<string>, field: string)
    requires ['/'] + field == if rest == [] then "/" else Extend("", rest)
    ensures field == "path" || field == "default" ==> HasRule(rest)
  {
    SafeText("path");
    SafeText("default");
    FieldIs(rest, "path");
    FieldIs(rest, "default");
    assert (['/'] + field)[1..] == field;
  }

  /**
   * Which leaves the rule looks at: none outside the map; every one of an entry with the built-in id, which it refuses;
   * and of any other entry only its path and its default.
   */
  lemma StorageRuleLooksAt(pf: Platform, document: Fields, kind: Kind, path: seq<string>)
    requires SafeKind(kind)
    ensures var errs := StoragePathRules(pf, Extend("", path), document, kind.Base());
            && (!Starts(path, [kind.section, kind.key]) ==> errs == [])
            && (Starts(path, [kind.section, kind.key]) && path[2] == BUILTIN ==> errs != [])
            && (Starts(path, [kind.section, kind.key]) && path[2] != BUILTIN && !HasRule(path[3..]) ==> errs == [])
  {
    BaseOfKind(kind);
    PrefixIsPath(path, [kind.section, kind.key]);
    if Starts(path, [kind.section, kind.key]) {
      RuleReads(kind, path);
      BuiltinIs(path[2]);
      FieldHasRule(path[3..], CutAfter(TrimPrefix(Extend("", path), kind.Base() + "/"), '/'));
    }
  }

  // ----- The rules of each file -----

  lemma OneKey(key: string)
    requires SafeKey(key)
    ensures Extend("", [key]) == ['/'] + key
  {
    EscapeSafe(key);
    PointerHead([key]);
  }

  lemma TwoKeys(first: string, second: string)
    requires SafeKey(first) && SafeKey(second)
    ensures Extend("", [first, second]) == ['/'] + first + ['/'] + second
  {
    EscapeSafe(first);
    OneKey(second);
    PointerHead([first, second]);
    assert [first, second][1..] == [second];
  }

  lemma ThreeKeys(first: string, second: string, third: string)
    requires SafeKey(first) && SafeKey(second) && SafeKey(third)
    ensures Extend("", [first, second, third]) == ['/'] + first + ['/'] + second + ['/'] + third
  {
    EscapeSafe(first);
    TwoKeys(second, third);
    PointerHead([first, second, third]);
    assert [first, second, third][1..] == [second, third];
  }

  /** A pointer is that of some keys exactly when its path is those keys. */
  lemma PointerIs(path: seq<string>, keys: seq<string>, pointer: string)
    requires Extend("", keys) == pointer
    ensures Extend("", path) == pointer <==> path == keys
  {
    if Extend("", path) == pointer { ExtendInjective("", path, keys); }
  }

  lemma AtTwoKeys(path: seq<string>, first: string, second: string)
    requires SafeKey(first) && SafeKey(second)
    ensures Extend("", path) == "/" + first + "/" + second <==> path == [first, second]
  {
    TwoKeys(first, second);
    PointerIs(path, [first, second], "/" + first + "/" + second);
  }

  lemma AtThreeKeys(path: seq<string>, first: string, second: string, third: string)
    requires SafeKey(first) && SafeKey(second) && SafeKey(third)
    ensures Extend("", path) == "/" + first + "/" + second + "/" + third <==> path == [first, second, third]
  {
    ThreeKeys(first, second, third);
    PointerIs(path, [first, second, third], "/" + first + "/" + second + "/" + third);
  }

  lemma UnderKey(path: seq<string>, key: string)
    requires SafeKey(key)
    ensures HasPrefix(Extend("", path), "/" + key + "/") <==> Starts(path, [key])
  {
    OneKey(key);
    PrefixIsPath(path, [key]);
  }

  lemma UnderTwoKeys(path: seq<string>, first: string, second: string)
    requires SafeKey(first) && SafeKey(second)
    ensures HasPrefix(Extend("", path), "/" + first + "/" + second + "/") <==> Starts(path, [first, second])
  {
    TwoKeys(first, second);
    PrefixIsPath(path, [first, second]);
  }

  lemma SafeAppKeys()
    ensures SafeKey("server") && SafeKey("bind_address") && SafeKey("file_browser") && SafeKey("root")
    ensures SafeKey("applications") && SafeKey("path")
  {
    SafeText("server");
    SafeText("bind_address");
    SafeText("file_browser");
    SafeText("root");
    SafeText("applications");
    SafeText("path");
  }

  lemma SafeOtherKeys()
    ensures SafeKey("provisioning") && SafeKey("network") && SafeKey("subnet")
    ensures SafeKey("artifact_storage") && SafeKey("paths") && SafeKey("path")
  {
    SafeText("provisioning");
    SafeText("network");
    SafeText("subnet");
    SafeText("artifact_storage");
    SafeText("paths");
    SafeText("path");
  }

  /** The path goes on from the keys and ends in a field named path. */
  predicate PathBelow(path: seq<string>, keys: seq<string>) {
    Starts(path, keys) && path[|path| - 1] == "path"
  }

  /** Exactly when a leaf of the app file passes. */
  lemma AppRulesExactly(pf: Platform, path: seq<string>, value: Json, document: Fields)
    ensures CodeRules(pf, Extend("", path), value, "app", document) == [] <==>
            (value.Str? ==>
               && (path == ["server", "bind_address"] && value.text != "" ==> pf.isIP(value.text))
               && (path == ["file_browser", "root"] && value.text != "" ==> pf.isAbs(value.text))
               && (PathBelow(path, ["applications"]) ==> pf.isAbs(value.text)))
  {
    SafeAppKeys();
    AtTwoKeys(path, "server", "bind_address");
    AtTwoKeys(path, "file_browser", "root");
    UnderKey(path, "applications");
    SuffixIsLast(path, "path");
  }

  /** Exactly when a leaf of the machines file passes: the subnet's text, and the rules of both maps. */
  lemma MachinesRulesExactly(pf: Platform, path: seq<string>, value: Json, document: Fields)
    ensures CodeRules(pf, Extend("", path), value, "machines", document) == [] <==>
            && (path == ["provisioning", "network", "subnet"] && value.Str? ==> pf.isCIDR(value.text))
            && StoragePathRules(pf, Extend("", path), document, MACHINES.Base()) == []
            && StoragePathRules(pf, Extend("", path), document, PROVISIONERS.Base()) == []
  {
    SafeOtherKeys();
    AtThreeKeys(path, "provisioning", "network", "subnet");
  }

  /** Exactly when a leaf of the storage file passes: the rule of its map, and absolute artifact paths. */
  lemma StorageRulesExactly(pf: Platform, path: seq<string>, value: Json, document: Fields)
    ensures CodeRules(pf, Extend("", path), value, "storage", document) == [] <==>
            && StoragePathRules(pf, Extend("", path), document, TEMPLATES.Base()) == []
            && (PathBelow(path, ["artifact_storage", "paths"]) && value.Str? ==> pf.isAbs(value.text))
  {
    SafeOtherKeys();
    UnderTwoKeys(path, "artifact_storage", "paths");
    SuffixIsLast(path, "path");
  }

  /** A file without a section of its own has no rules. */
  lemma OtherFilesHaveNoRules(pf: Platform, pointer: string, value: Json, name: string, document: Fields)
    requires name !in {"app", "auth", "machines", "storage"}
    ensures CodeRules(pf, pointer, value, name, document) == []
  {
  }
}
