/** The string operations of Go's standard library that the modelled code calls. */
module GoStrings {

  datatype Option<+T> = None | Some(value: T)

  predicate HasPrefix(s: string, prefix: string) {
    prefix <= s
  }

  predicate HasSuffix(s: string, suffix: string) {
    |suffix| <= |s| && s[|s| - |suffix|..] == suffix
  }

  function TrimPrefix(s: string, prefix: string): string {
    if HasPrefix(s, prefix) then s[|prefix|..] else s
  }

  /** strings.ReplaceAll for a non-empty `old`: leftmost, non-overlapping. */
  function ReplaceAll(s: string, pattern: string, replacement: string): string
    requires pattern != ""
    decreases |s|
  {
    if s == "" then ""
    else if pattern <= s then replacement + ReplaceAll(s[|pattern|..], pattern, replacement)
    else [s[0]] + ReplaceAll(s[1..], pattern, replacement)
  }

  /** strings.Split at a one-character separator. */
  function Split(s: string, sep: char): (parts: seq<string>)
    ensures |parts| >= 1
    ensures forall i :: 0 <= i < |parts| ==> sep !in parts[i]
  {
    if s == "" then [""]
    else
      var rest := Split(s[1..], sep);
      if s[0] == sep then [""] + rest else [[s[0]] + rest[0]] + rest[1..]
  }

  /** The part of `s` before the first `sep`, all of `s` when there is none. */
  function CutBefore(s: string, sep: char): string {
    if s == "" || s[0] == sep then "" else [s[0]] + CutBefore(s[1..], sep)
  }

  /** The part of `s` after the first `sep`, empty when there is none. */
  function CutAfter(s: string, sep: char): string {
    if s == "" then "" else if s[0] == sep then s[1..] else CutAfter(s[1..], sep)
  }

  /** strings.Index: the offset of the first occurrence of a non-empty `sub`. */
  function Index(s: string, sub: string): (at: Option<nat>)
    requires sub != ""
    ensures at.Some? ==> at.value + |sub| <= |s| && sub <= s[at.value..]
  {
    if s == "" then None
    else if sub <= s then Some(0)
    else match Index(s[1..], sub)
      case None => None
      case Some(i) => assert s[1..][i..] == s[i + 1..]; Some(i + 1)
  }

  /** The text has `sub` at an offset. */
  predicate OccursAt(s: string, sub: string, i: nat) {
    i <= |s| && sub <= s[i..]
  }

  /** Index answers the first offset at which `sub` occurs, and none only when it occurs nowhere. */
  lemma {:induction false} IndexExactly(s: string, sub: string)
    requires sub != ""
    ensures match Index(s, sub)
            case Some(at) => OccursAt(s, sub, at) && forall i: nat :: i < at ==> !OccursAt(s, sub, i)
            case None => forall i: nat :: !OccursAt(s, sub, i)
  {
    if s != "" {
      IndexExactly(s[1..], sub);
      forall i: nat | 0 < i ensures OccursAt(s, sub, i) <==> OccursAt(s[1..], sub, i - 1) {
        if i <= |s| { assert s[i..] == s[1..][i - 1..]; }
      }
      assert s[0..] == s;
    }
  }

  lemma {:induction false} SplitWhole(s: string, sep: char)
    requires sep !in s
    ensures Split(s, sep) == [s]
  {
    if s != "" {
      SplitWhole(s[1..], sep);
      assert [s[0]] + s[1..] == s;
    }
  }

  /** One more character before a text: a separator starts a new part, any other joins the first. */
  function Prefixed(c: char, sep: char, parts: seq<string>): seq<string>
    requires |parts| >= 1
  {
    if c == sep then [""] + parts else [[c] + parts[0]] + parts[1..]
  }

  lemma SplitStep(c: char, s: string, sep: char)
    ensures Split([c] + s, sep) == Prefixed(c, sep, Split(s, sep))
  {
    assert ([c] + s)[1..] == s;
  }

  lemma PrefixedConcat(c: char, sep: char, a: seq<string>, b: seq<string>)
    requires |a| >= 1
    ensures Prefixed(c, sep, a + b) == Prefixed(c, sep, a) + b
  {
    assert (a + b)[1..] == a[1..] + b;
  }

  /** Two texts joined by the separator have the parts of both. */
  lemma {:induction false} SplitConcat(s: string, sep: char, more: string)
    ensures Split(s + [sep] + more, sep) == Split(s, sep) + Split(more, sep)
  {
    if s == "" {
      SplitStep(sep, more, sep);
      assert s + [sep] + more == [sep] + more;
    } else {
      var tail := s[1..];
      var rest := tail + [sep] + more;
      SplitConcat(tail, sep, more);
      SplitStep(s[0], tail, sep);
      SplitStep(s[0], rest, sep);
      PrefixedConcat(s[0], sep, Split(tail, sep), Split(more, sep));
      assert [s[0]] + tail == s && s + [sep] + more == [s[0]] + rest;
    }
  }

  /** Appending one separator-free part to a text adds exactly that part. */
  lemma SplitAppend(s: string, sep: char, part: string)
    requires sep !in part
    ensures Split(s + [sep] + part, sep) == Split(s, sep) + [part]
  {
    SplitConcat(s, sep, part);
    SplitWhole(part, sep);
  }

  lemma {:induction false} CutRejoins(s: string, sep: char)
    requires CutAfter(s, sep) != ""
    ensures s == CutBefore(s, sep) + [sep] + CutAfter(s, sep) && sep !in CutBefore(s, sep)
  {
    if s != "" && s[0] != sep {
      CutRejoins(s[1..], sep);
      assert s == [s[0]] + s[1..];
    }
  }

  lemma {:induction false} CutAppend(s: string, sep: char, rest: string)
    requires sep !in s
    ensures CutBefore(s + [sep] + rest, sep) == s
    ensures CutAfter(s + [sep] + rest, sep) == rest
  {
    if s != "" {
      CutAppend(s[1..], sep, rest);
      assert (s + [sep] + rest)[1..] == s[1..] + [sep] + rest;
    }
  }

  lemma ReplaceHere(rest: string, pattern: string, replacement: string)
    requires pattern != ""
    ensures ReplaceAll(pattern + rest, pattern, replacement) == replacement + ReplaceAll(rest, pattern, replacement)
  {
    assert pattern <= pattern + rest && (pattern + rest)[|pattern|..] == rest;
  }

  lemma ReplaceNotHere(c: char, rest: string, pattern: string, replacement: string)
    requires pattern != "" && !(pattern <= [c] + rest)
    ensures ReplaceAll([c] + rest, pattern, replacement) == [c] + ReplaceAll(rest, pattern, replacement)
  {
    assert ([c] + rest)[1..] == rest;
  }
}
