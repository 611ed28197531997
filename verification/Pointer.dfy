/** JSON Pointers (RFC 6901, sections 3 and 4) as internal/configengine/tree.go writes and reads them. */
module Pointer {
  import opened GoStrings
  import opened Json

  function Escape(segment: string): string {
    ReplaceAll(ReplaceAll(segment, "~", "~0"), "/", "~1")
  }

  function Unescape(part: string): string {
    ReplaceAll(ReplaceAll(part, "~1", "/"), "~0", "~")
  }

  function UnescapeAll(parts: seq<string>): seq<string> {
    seq(|parts|, i requires 0 <= i < |parts| => Unescape(parts[i]))
  }

  function SegmentsOf(pointer: string): seq<string> {
    if pointer == "" then [] else UnescapeAll(Split(pointer, '/')[1..])
  }

  /** The pointer reached from `base` by descending through the keys of `path`. */
  function Extend(base: string, path: seq<string>): string
    decreases |path|
  {
    if path == [] then base else Extend(base + "/" + Escape(path[0]), path[1..])
  }

  /** segmentsOf: the parts are unescaped in place, one after the other. */
  method ParsePointer(pointer: string) returns (parts: seq<string>)
    ensures parts == SegmentsOf(pointer)
  {
    if pointer == "" {
      return [];
    }
    var split := Split(pointer, '/')[1..];
    parts := split;
    for i := 0 to |parts|
      invariant |parts| == |split|
      invariant forall j :: 0 <= j < i ==> parts[j] == Unescape(split[j])
      invariant forall j :: i <= j < |parts| ==> parts[j] == split[j]
    {
      parts := parts[i := Unescape(parts[i])];
    }
  }

  /** valueAt: walks the document along the segments of a pointer. */
  method ReadAt(document: Json, pointer: string) returns (node: Json)
    ensures node == ValueAt(document, SegmentsOf(pointer))
  {
    var segments := ParsePointer(pointer);
    node := document;
    for i := 0 to |segments|
      invariant ValueAt(node, segments[i..]) == ValueAt(document, segments)
    {
      if !node.Obj? {
        return Null;
      }
      node := Get(node.fields, segments[i]);
    }
  }

  // ----- Escaping loses nothing -----

  function EscapeChar(c: char): string {
    if c == '~' then "~0" else if c == '/' then "~1" else [c]
  }

  /** What the first escaping pass makes of one character. */
  function TildeChar(c: char): string {
    if c == '~' then "~0" else [c]
  }

  lemma NotAtHead(c: char, rest: string, other: char)
    requires c != other
    ensures !([other] <= [c] + rest)
  {
    assert ([c] + rest)[0] == c;
  }

  /** An escape of two characters starts only where both stand. */
  lemma NoEscapeAtHead(c: char, rest: string, second: char)
    requires c == '~' ==> rest == "" || rest[0] != second
    ensures !(['~', second] <= [c] + rest)
  {
    assert |['~', second]| == 2 && ([c] + rest)[0] == c;
    assert rest != "" ==> ([c] + rest)[1] == rest[0];
  }

  lemma TildeStep(k: string)
    requires k != ""
    ensures ReplaceAll(k, "~", "~0") == TildeChar(k[0]) + ReplaceAll(k[1..], "~", "~0")
  {
    assert k == [k[0]] + k[1..];
    if k[0] == '~' {
      ReplaceHere(k[1..], "~", "~0");
    } else {
      NotAtHead(k[0], k[1..], '~');
      ReplaceNotHere(k[0], k[1..], "~", "~0");
    }
  }

  lemma PairTail(c: char, d: char, rest: string)
    ensures [c, d] + rest == [c] + ([d] + rest)
  {
  }

  /** The second escaping pass, on what the first makes of one character. */
  lemma SlashChar(c: char, rest: string)
    ensures ReplaceAll(TildeChar(c) + rest, "/", "~1") == EscapeChar(c) + ReplaceAll(rest, "/", "~1")
  {
    if c == '~' {
      PairTail('~', '0', rest);
      NotAtHead('~', ['0'] + rest, '/');
      NotAtHead('0', rest, '/');
      ReplaceNotHere('~', ['0'] + rest, "/", "~1");
      ReplaceNotHere('0', rest, "/", "~1");
    } else if c == '/' {
      ReplaceHere(rest, "/", "~1");
    } else {
      NotAtHead(c, rest, '/');
      ReplaceNotHere(c, rest, "/", "~1");
    }
  }

  /** The first unescaping pass, on one escaped character. */
  lemma UnslashChar(c: char, rest: string)
    ensures ReplaceAll(EscapeChar(c) + rest, "~1", "/") == TildeChar(c) + ReplaceAll(rest, "~1", "/")
  {
    if c == '~' {
      PairTail('~', '0', rest);
      NoEscapeAtHead('~', ['0'] + rest, '1');
      NoEscapeAtHead('0', rest, '1');
      ReplaceNotHere('~', ['0'] + rest, "~1", "/");
      ReplaceNotHere('0', rest, "~1", "/");
    } else if c == '/' {
      ReplaceHere(rest, "~1", "/");
    } else {
      NoEscapeAtHead(c, rest, '1');
      ReplaceNotHere(c, rest, "~1", "/");
    }
  }

  lemma UntildeChar(c: char, rest: string)
    ensures ReplaceAll(TildeChar(c) + rest, "~0", "~") == [c] + ReplaceAll(rest, "~0", "~")
  {
    if c == '~' {
      ReplaceHere(rest, "~0", "~");
    } else {
      NoEscapeAtHead(c, rest, '0');
      ReplaceNotHere(c, rest, "~0", "~");
    }
  }

  lemma EscapeStep(k: string)
    requires k != ""
    ensures Escape(k) == EscapeChar(k[0]) + Escape(k[1..])
  {
    TildeStep(k);
    SlashChar(k[0], ReplaceAll(k[1..], "~", "~0"));
  }

  /** The first unescaping pass undoes exactly the second escaping pass. */
  lemma {:induction false} UnescapeSlashes(k: string)
    ensures ReplaceAll(Escape(k), "~1", "/") == ReplaceAll(k, "~", "~0")
  {
    if k != "" {
      EscapeStep(k);
      TildeStep(k);
      UnslashChar(k[0], Escape(k[1..]));
      UnescapeSlashes(k[1..]);
    }
  }

  lemma {:induction false} UnescapeTildes(k: string)
    ensures ReplaceAll(ReplaceAll(k, "~", "~0"), "~0", "~") == k
  {
    if k != "" {
      TildeStep(k);
      UntildeChar(k[0], ReplaceAll(k[1..], "~", "~0"));
      UnescapeTildes(k[1..]);
      assert [k[0]] + k[1..] == k;
    }
  }

  lemma UnescapeEscape(k: string)
    ensures Unescape(Escape(k)) == k
  {
    UnescapeSlashes(k);
    UnescapeTildes(k);
  }

  lemma {:induction false} EscapeHasNoSlash(k: string)
    ensures '/' !in Escape(k)
  {
    if k != "" {
      EscapeStep(k);
      EscapeHasNoSlash(k[1..]);
    }
  }

  lemma {:induction false} EscapeSafe(k: string)
    requires '/' !in k && '~' !in k
    ensures Escape(k) == k
  {
    if k != "" {
      EscapeStep(k);
      EscapeSafe(k[1..]);
    }
  }

  lemma {:induction false} EscapeLonger(k: string)
    ensures |Escape(k)| >= |k|
    ensures '/' in k || '~' in k ==> |Escape(k)| > |k|
  {
    if k != "" {
      EscapeStep(k);
      EscapeLonger(k[1..]);
    }
  }

  lemma UnescapeAllConcat(a: seq<string>, b: seq<string>)
    ensures UnescapeAll(a + b) == UnescapeAll(a) + UnescapeAll(b)
  {
  }

  /** Escaping goes character by character: section 3 of RFC 6901. */
  lemma EscapeExactly(c: char, rest: string)
    ensures Escape("") == ""
    ensures Escape([c] + rest) == (if c == '~' then ['~', '0'] else if c == '/' then ['~', '1'] else [c]) + Escape(rest)
  {
    EscapeStep([c] + rest);
    assert ([c] + rest)[1..] == rest;
  }

  // ----- Main results -----

  /** Appending an escaped key to any pointer appends exactly that key to its segments. */
  lemma PointerRoundTrip(base: string, key: string)
    ensures SegmentsOf(base + "/" + Escape(key)) == SegmentsOf(base) + [key]
  {
    EscapeHasNoSlash(key);
    UnescapeEscape(key);
    SplitAppend(base, '/', Escape(key));
    if base == "" {
      assert Split(base, '/') == [""];
    }
    assert (Split(base, '/') + [Escape(key)])[1..] == Split(base, '/')[1..] + [Escape(key)];
  }

  lemma {:induction false} SegmentsOfExtend(base: string, path: seq<string>)
    ensures SegmentsOf(Extend(base, path)) == SegmentsOf(base) + path
    decreases |path|
  {
    if path != [] {
      PointerRoundTrip(base, path[0]);
      SegmentsOfExtend(base + "/" + Escape(path[0]), path[1..]);
      HeadMoves(SegmentsOf(base), path);
    }
  }

  lemma HeadMoves(before: seq<string>, path: seq<string>)
    requires path != []
    ensures before + [path[0]] + path[1..] == before + path
  {
  }

  /** Two paths below one base have the same pointer only when they are the same path. */
  lemma ExtendInjective(base: string, p: seq<string>, q: seq<string>)
    requires Extend(base, p) == Extend(base, q)
    ensures p == q
  {
    SegmentsOfExtend(base, p);
    SegmentsOfExtend(base, q);
    var s := SegmentsOf(base);
    assert p == (s + p)[|s|..] && q == (s + q)[|s|..];
  }

  lemma {:induction false} ExtendConcat(base: string, p: seq<string>, q: seq<string>)
    ensures Extend(base, p + q) == Extend(Extend(base, p), q)
    decreases |p|
  {
    if p == [] {
      assert p + q == q;
    } else {
      assert (p + q)[1..] == p[1..] + q;
      ExtendConcat(base + "/" + Escape(p[0]), p[1..], q);
    }
  }
}
