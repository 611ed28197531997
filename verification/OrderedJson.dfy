/**
 * The order-keeping JSON codec of stored documents: orderedYAMLToJSON (internal/machines/create_exec_document.go) and
 * decodeOrderedJSON (internal/machines/hostsyml.go), over the grammar of RFC 8259.
 */
module OrderedJson {
  import opened GoStrings

  datatype Tree =
    | Nil
    | Flag(flag: bool)
    | Int(number: int)
    | Real(lexeme: string)
    | Text(text: string)
    | List(items: seq<Tree>)
    | Map(members: seq<Member>)

  datatype Member = Member(key: string, value: Tree)

  datatype Read<+T> = Ok(value: T, rest: string) | Err

  const MIN_INT64: int := -0x8000_0000_0000_0000
  const MAX_INT64: int := 0x7fff_ffff_ffff_ffff

  // ----- Printing -----

  function Digits(n: nat): string {
    if n < 10 then [DigitChar(n)] else Digits(n / 10) + [DigitChar(n % 10)]
  }

  function DigitChar(d: nat): char
    requires d < 10
  {
    ('0' as int + d) as char
  }

  function Decimal(n: int): string {
    if n < 0 then ['-'] + Digits(-n) else Digits(n)
  }

  function HexDigit(d: nat): char
    requires d < 16
  {
    if d < 10 then ('0' as int + d) as char else ('a' as int + d - 10) as char
  }

  /** The escape \\uXXXX of a code. */
  function HexEscape(n: nat): string
    requires n < 0x10000
  {
    ['\\', 'u', HexDigit(n / 4096), HexDigit(n / 256 % 16), HexDigit(n / 16 % 16), HexDigit(n % 16)]
  }

  /** json.Marshal of one character of a string, with its HTML escapes. */
  function QuoteChar(c: char): string {
    if c == '"' then ['\\', '"']
    else if c == '\\' then ['\\', '\\']
    else if c as int == 8 then ['\\', 'b']
    else if c as int == 12 then ['\\', 'f']
    else if c == '\n' then ['\\', 'n']
    else if c == '\r' then ['\\', 'r']
    else if c == '\t' then ['\\', 't']
    else if c as int < 32 || c == '<' || c == '>' || c == '&' || c as int == 0x2028 || c as int == 0x2029 then
        HexEscape(c as int)
    else [c]
  }

  // Each printing function takes the text that follows, so that what it yields is the printed form and then that text.

  function BodyTo(s: string, rest: string): string {
    if s == "" then rest else QuoteChar(s[0]) + BodyTo(s[1..], rest)
  }

  function QuoteTo(s: string, rest: string): string {
    ['"'] + BodyTo(s, ['"'] + rest)
  }

  function PrintTo(v: Tree, rest: string): string
    decreases v, 1
  {
    match v
    case Nil => ['n', 'u', 'l', 'l'] + rest
    case Flag(flag) => (if flag then ['t', 'r', 'u', 'e'] else ['f', 'a', 'l', 's', 'e']) + rest
    case Int(number) => Decimal(number) + rest
    case Real(lexeme) => lexeme + rest
    case Text(text) => QuoteTo(text, rest)
    case List(items) => ['['] + ItemsTo(items, true, [']'] + rest)
    case Map(members) => ['{'] + MembersTo(members, true, ['}'] + rest)
  }

  function ItemsTo(items: seq<Tree>, first: bool, rest: string): string
    decreases items, 0
  {
    if items == [] then rest
    else if first then PrintTo(items[0], ItemsTo(items[1..], false, rest))
    else [','] + PrintTo(items[0], ItemsTo(items[1..], false, rest))
  }

  function MembersTo(members: seq<Member>, first: bool, rest: string): string
    decreases members, 0
  {
    if members == [] then rest
    else
      var member := QuoteTo(members[0].key, [':'] + PrintTo(members[0].value, MembersTo(members[1..], false, rest)));
      if first then member else [','] + member
  }

  function Print(v: Tree): string {
    PrintTo(v, "")
  }

  lemma {:induction false} BodyAppends(s: string, rest: string, more: string)
    ensures BodyTo(s, rest + more) == BodyTo(s, rest) + more
  {
    if s != "" {
      BodyAppends(s[1..], rest, more);
    }
  }

  lemma QuoteAppends(s: string, rest: string, more: string)
    ensures QuoteTo(s, rest + more) == QuoteTo(s, rest) + more
  {
    assert ['"'] + (rest + more) == (['"'] + rest) + more;
    BodyAppends(s, ['"'] + rest, more);
  }

  /** The text that follows is only ever appended. */
  lemma {:induction false} PrintAppends(v: Tree, rest: string, more: string)
    ensures PrintTo(v, rest + more) == PrintTo(v, rest) + more
    decreases v, 1
  {
    match v {
      case Text(text) => QuoteAppends(text, rest, more);
      case List(items) =>
        assert [']'] + (rest + more) == ([']'] + rest) + more;
        ItemsAppend(items, true, [']'] + rest, more);
      case Map(members) =>
        assert ['}'] + (rest + more) == (['}'] + rest) + more;
        MembersAppend(members, true, ['}'] + rest, more);
      case _ =>
    }
  }

  lemma {:induction false} ItemsAppend(items: seq<Tree>, first: bool, rest: string, more: string)
    ensures ItemsTo(items, first, rest + more) == ItemsTo(items, first, rest) + more
    decreases items, 0
  {
    if items != [] {
      ItemsAppend(items[1..], false, rest, more);
      PrintAppends(items[0], ItemsTo(items[1..], false, rest), more);
    }
  }

  lemma {:induction false} MembersAppend(members: seq<Member>, first: bool, rest: string, more: string)
    ensures MembersTo(members, first, rest + more) == MembersTo(members, first, rest) + more
    decreases members, 0
  {
    if members != [] {
      var inner := MembersTo(members[1..], false, rest);
      var value := PrintTo(members[0].value, inner);
      MembersAppend(members[1..], false, rest, more);
      PrintAppends(members[0].value, inner, more);
      MemberAppends(members[0].key, value, more);
    }
  }

  lemma MemberAppends(key: string, value: string, more: string)
    ensures QuoteTo(key, [':'] + (value + more)) == QuoteTo(key, [':'] + value) + more
    ensures [','] + QuoteTo(key, [':'] + (value + more)) == [','] + QuoteTo(key, [':'] + value) + more
  {
    assert [':'] + (value + more) == ([':'] + value) + more;
    QuoteAppends(key, [':'] + value, more);
  }

  lemma PrintIsPrefix(v: Tree, rest: string)
    ensures PrintTo(v, rest) == Print(v) + rest
  {
    assert "" + rest == rest;
    PrintAppends(v, "", rest);
  }

  /** orderedYAMLToJSON: appends to a buffer in loops, members in their own order. */
  method Encode(v: Tree) returns (buf: string)
    ensures buf == Print(v)
    decreases v, 1
  {
    match v {
      case Map(members) =>
        buf := EncodeMembers(members);
        assert ['}'] + "" == ['}'];
      case List(items) =>
        buf := EncodeItems(items);
        assert [']'] + "" == [']'];
      case _ =>
        buf := Print(v);
    }
  }

  method EncodeMembers(members: seq<Member>) returns (buf: string)
    ensures buf == ['{'] + MembersTo(members, true, ['}'])
    decreases members, 0
  {
    buf := ['{'];
    for i := 0 to |members|
      invariant buf + MembersTo(members[i..], i == 0, ['}']) == ['{'] + MembersTo(members, true, ['}'])
    {
      var key := QuoteTo(members[i].key, [':']);
      var encoded := Encode(members[i].value);
      assert members[i..][1..] == members[i + 1..];
      PrintMember(buf, members[i..], i == 0, ['}']);
      buf := buf + (Comma(i == 0) + key + encoded);
    }
    buf := buf + ['}'];
  }

  function Comma(first: bool): string {
    if first then [] else [',']
  }

  /** What one turn of the loop appends. */
  lemma PrintMember(buf: string, members: seq<Member>, first: bool, rest: string)
    requires members != []
    ensures (buf + (Comma(first) + QuoteTo(members[0].key, [':']) + Print(members[0].value)))
              + MembersTo(members[1..], false, rest)
            == buf + MembersTo(members, first, rest)
  {
    var key, value := QuoteTo(members[0].key, [':']), Print(members[0].value);
    var tail := MembersTo(members[1..], false, rest);
    MemberStep(members[0], tail);
    assert MembersTo(members, first, rest) == Comma(first) + (key + (value + tail));
    Regroup(buf, Comma(first), key, value, tail);
  }

  lemma MemberStep(member: Member, tail: string)
    ensures QuoteTo(member.key, [':'] + PrintTo(member.value, tail))
            == QuoteTo(member.key, [':']) + (Print(member.value) + tail)
  {
    PrintIsPrefix(member.value, tail);
    QuoteAppends(member.key, [':'], Print(member.value) + tail);
  }

  lemma Regroup(a: string, b: string, c: string, d: string, e: string)
    ensures (a + (b + c + d)) + e == a + (b + (c + (d + e)))
  {
  }

  method EncodeItems(items: seq<Tree>) returns (buf: string)
    ensures buf == ['['] + ItemsTo(items, true, [']'])
    decreases items, 0
  {
    buf := ['['];
    for i := 0 to |items|
      invariant buf + ItemsTo(items[i..], i == 0, [']']) == ['['] + ItemsTo(items, true, [']'])
    {
      var encoded := Encode(items[i]);
      assert items[i..][1..] == items[i + 1..];
      PrintItem(buf, items[i..], i == 0, [']']);
      buf := buf + (Comma(i == 0) + encoded);
    }
    buf := buf + [']'];
  }

  lemma PrintItem(buf: string, items: seq<Tree>, first: bool, rest: string)
    requires items != []
    ensures (buf + (Comma(first) + Print(items[0]))) + ItemsTo(items[1..], false, rest)
            == buf + ItemsTo(items, first, rest)
  {
    var value, tail := Print(items[0]), ItemsTo(items[1..], false, rest);
    PrintIsPrefix(items[0], tail);
    assert ItemsTo(items, first, rest) == Comma(first) + (value + tail);
    assert (buf + (Comma(first) + value)) + tail == buf + (Comma(first) + (value + tail));
  }

  // ----- Reading -----

  predicate IsSpace(c: char) {
    c == ' ' || c == '\n' || c == '\r' || c == '\t'
  }

  function SkipSpace(s: string): (t: string)
    ensures |t| <= |s|
    ensures t != "" ==> !IsSpace(t[0])
  {
    if s != "" && IsSpace(s[0]) then SkipSpace(s[1..]) else s
  }

  predicate IsDigit(c: char) {
    '0' <= c <= '9'
  }

  function CountDigits(s: string): (n: nat)
    ensures n <= |s|
    ensures forall i :: 0 <= i < n ==> IsDigit(s[i])
  {
    if s != "" && IsDigit(s[0]) then 1 + CountDigits(s[1..]) else 0
  }

  /** The integer part of a number: a zero, or digits that do not start with one; zero length when there is none. */
  function IntegerEnd(s: string): (n: nat)
    ensures n <= |s|
    ensures n > 0 ==> IsInteger(s[..n])
  {
    var sign := if s != "" && s[0] == '-' then 1 else 0;
    var digits := CountDigits(s[sign..]);
    assert forall i :: sign <= i < sign + digits ==> s[i] == s[sign..][i - sign];
    if digits == 0 then 0 else if s[sign] == '0' then sign + 1 else sign + digits
  }

  /** Digits, after a minus sign or not. */
  predicate IsInteger(text: string) {
    text != "" && (text[0] == '-' || IsDigit(text[0])) && forall i :: 1 <= i < |text| ==> IsDigit(text[i])
  }

  function IntegerValue(text: string): int
    requires IsInteger(text)
  {
    if text[0] == '-' then -(DigitsValue(text[1..]) as int) else DigitsValue(text)
  }

  /** The fraction and exponent after an integer part; None when one is begun and not finished. */
  function FractionEnd(s: string): (n: Option<nat>)
    ensures n.Some? ==> n.value <= |s|
  {
    if s != "" && s[0] == '.' then
      var digits := CountDigits(s[1..]);
      if digits == 0 then None else Some(1 + digits)
    else Some(0)
  }

  function ExponentEnd(s: string): (n: Option<nat>)
    ensures n.Some? ==> n.value <= |s|
  {
    if s != "" && (s[0] == 'e' || s[0] == 'E') then
      var sign := if |s| > 1 && (s[1] == '+' || s[1] == '-') then 2 else 1;
      var digits := CountDigits(s[sign..]);
      if digits == 0 then None else Some(sign + digits)
    else Some(0)
  }

  function DigitsValue(s: string): nat
    requires forall i :: 0 <= i < |s| ==> IsDigit(s[i])
  {
    if s == "" then 0 else assert IsDigit(s[|s| - 1]); DigitsValue(s[..|s| - 1]) * 10 + (s[|s| - 1] as int - '0' as int)
  }

  /** The 64-bit integer a number denotes when it is one, else the number as it is written. */
  function NumberOf(integer: string, lexeme: string): Tree
    requires IsInteger(integer)
  {
    if lexeme == integer && MIN_INT64 <= IntegerValue(integer) <= MAX_INT64 then Int(IntegerValue(integer))
        else Real(lexeme)
  }

  function ReadNumber(s: string): (r: Read<Tree>)
    ensures r.Ok? ==> |r.rest| < |s|
  {
    var whole := IntegerEnd(s);
    if whole == 0 then Err
    else
      var fraction := FractionEnd(s[whole..]);
      if fraction.None? then Err
      else
        var exponent := ExponentEnd(s[whole + fraction.value..]);
        if exponent.None? then Err
        else
          var end := whole + fraction.value + exponent.value;
          Ok(NumberOf(s[..whole], s[..end]), s[end..])
  }

  function HexValue(c: char): Option<nat> {
    if IsDigit(c) then Some(c as int - '0' as int)
    else if 'a' <= c <= 'f' then Some(c as int - 'a' as int + 10)
    else if 'A' <= c <= 'F' then Some(c as int - 'A' as int + 10)
    else None
  }

  /** The code of a \uXXXX escape at the head of `s`. */
  function EscapedCode(s: string): (code: Option<nat>)
    ensures code.Some? ==> |s| >= 6 && code.value < 0x10000
  {
    if |s| < 6 || s[0] != '\\' || s[1] != 'u' then None
    else
      var (a, b, c, d) := (HexValue(s[2]), HexValue(s[3]), HexValue(s[4]), HexValue(s[5]));
      if a.Some? && b.Some? && c.Some? && d.Some? then Some(a.value * 4096 + b.value * 256 + c.value * 16 + d.value)
          else None
  }

  const REPLACEMENT: char := 0xFFFD as char

  /** One \uXXXX escape: a surrogate pair counts as one character, a lone surrogate as the replacement character. */
  function ReadEscapedCode(s: string): (r: Read<char>)
    ensures r.Ok? ==> |r.rest| < |s|
  {
    match EscapedCode(s)
    case None => Err
    case Some(code) =>
      if code < 0xD800 || 0xE000 <= code then Ok(code as char, s[6..])
      else
        match EscapedCode(s[6..])
        case Some(low) =>
          if code < 0xDC00 && 0xDC00 <= low < 0xE000 then
              Ok((0x10000 + (code - 0xD800) * 1024 + (low - 0xDC00)) as char, s[12..])
          else Ok(REPLACEMENT, s[6..])
        case None => Ok(REPLACEMENT, s[6..])
  }

  /** One character of a string literal, escaped or not. */
  function ReadChar(s: string): (r: Read<char>)
    ensures r.Ok? ==> |r.rest| < |s|
  {
    if s == "" || s[0] as int < 32 || s[0] == '"' then Err
    else if s[0] != '\\' then Ok(s[0], s[1..])
    else if |s| < 2 then Err
    else match s[1]
      case '"' => Ok('"', s[2..])
      case '\\' => Ok('\\', s[2..])
      case '/' => Ok('/', s[2..])
      case 'b' => Ok(8 as char, s[2..])
      case 'f' => Ok(12 as char, s[2..])
      case 'n' => Ok('\n', s[2..])
      case 'r' => Ok('\r', s[2..])
      case 't' => Ok('\t', s[2..])
      case _ => ReadEscapedCode(s)
  }

  /** A string literal after its opening quote. */
  function ReadBody(s: string): (r: Read<string>)
    ensures r.Ok? ==> |r.rest| < |s|
    decreases |s|
  {
    if s != "" && s[0] == '"' then Ok("", s[1..])
    else match ReadChar(s)
      case Err => Err
      case Ok(c, rest) =>
        match ReadBody(rest)
        case Err => Err
        case Ok(tail, end) => Ok([c] + tail, end)
  }

  function ReadLiteral(s: string, word: string, value: Tree): (r: Read<Tree>)
    requires word != ""
    ensures r.Ok? ==> |r.rest| < |s|
  {
    if word <= s then Ok(value, s[|word|..]) else Err
  }

  /** decodeOrderedJSON: one value at the head of the input, and the input after it. */
  function ReadValue(s: string): (r: Read<Tree>)
    ensures r.Ok? ==> |r.rest| < |s|
    decreases |s|, 1
  {
    var t := SkipSpace(s);
    if t == "" then Err
    else match t[0]
      case '{' => (match ReadMembers(t[1..], true) case Err => Err case Ok(members, rest) => Ok(Map(members), rest))
      case '[' => (match ReadItems(t[1..], true) case Err => Err case Ok(items, rest) => Ok(List(items), rest))
      case '"' => (match ReadBody(t[1..]) case Err => Err case Ok(text, rest) => Ok(Text(text), rest))
      case 'n' => ReadLiteral(t, ['n', 'u', 'l', 'l'], Nil)
      case 't' => ReadLiteral(t, ['t', 'r', 'u', 'e'], Flag(true))
      case 'f' => ReadLiteral(t, ['f', 'a', 'l', 's', 'e'], Flag(false))
      case _ => ReadNumber(t)
  }

  /** What must stand before the next element: nothing before the first, a comma before every other. */
  function Separator(s: string, first: bool): (r: Option<string>)
    ensures r.Some? ==> |r.value| <= |s|
  {
    var t := SkipSpace(s);
    if first then Some(t) else if t != "" && t[0] == ',' then Some(SkipSpace(t[1..])) else None
  }

  /** The key of a member and the colon after it. */
  function ReadKey(s: string): (r: Read<string>)
    ensures r.Ok? ==> |r.rest| < |s|
  {
    if s == "" || s[0] != '"' then Err
    else match ReadBody(s[1..])
      case Err => Err
      case Ok(key, rest) =>
        var t := SkipSpace(rest);
        if t != "" && t[0] == ':' then Ok(key, t[1..]) else Err
  }

  function ReadMembers(s: string, first: bool): (r: Read<seq<Member>>)
    ensures r.Ok? ==> |r.rest| < |s|
    decreases |s|, 0
  {
    var t := SkipSpace(s);
    if t != "" && t[0] == '}' then Ok([], t[1..])
    else match Separator(s, first)
      case None => Err
      case Some(start) =>
        match ReadKey(start)
        case Err => Err
        case Ok(key, afterKey) =>
          match ReadValue(afterKey)
          case Err => Err
          case Ok(value, rest) =>
            match ReadMembers(rest, false)
            case Err => Err
            case Ok(members, end) => Ok([Member(key, value)] + members, end)
  }

  function ReadItems(s: string, first: bool): (r: Read<seq<Tree>>)
    ensures r.Ok? ==> |r.rest| < |s|
    decreases |s|, 2
  {
    var t := SkipSpace(s);
    if t != "" && t[0] == ']' then Ok([], t[1..])
    else match Separator(s, first)
      case None => Err
      case Some(start) =>
        match ReadValue(start)
        case Err => Err
        case Ok(value, rest) =>
          match ReadItems(rest, false)
          case Err => Err
          case Ok(items, end) => Ok([value] + items, end)
  }

  // ----- Print, then read: the pieces -----

  lemma {:induction false} DigitsAreDigits(n: nat)
    ensures |Digits(n)| > 0 && forall i :: 0 <= i < |Digits(n)| ==> IsDigit(Digits(n)[i])
    ensures DigitsValue(Digits(n)) == n
    ensures n > 0 ==> Digits(n)[0] != '0'
  {
    if n >= 10 {
      DigitsAreDigits(n / 10);
      assert Digits(n)[..|Digits(n)| - 1] == Digits(n / 10);
    } else {
      assert [DigitChar(n)][..0] == "";
    }
  }

  lemma {:induction false} CountAll(digits: string, rest: string)
    requires forall i :: 0 <= i < |digits| ==> IsDigit(digits[i])
    requires rest == "" || !IsDigit(rest[0])
    ensures CountDigits(digits + rest) == |digits|
  {
    if digits != "" {
      CountAll(digits[1..], rest);
      assert (digits + rest)[1..] == digits[1..] + rest;
    } else {
      assert digits + rest == rest;
    }
  }

  /** What may follow a printed number: not a digit, not a fraction, not an exponent. */
  predicate EndsNumber(rest: string) {
    rest == "" || (!IsDigit(rest[0]) && rest[0] != '.' && rest[0] != 'e' && rest[0] != 'E')
  }

  lemma UnsignedEnd(digits: string, rest: string)
    requires digits != "" && (forall i :: 0 <= i < |digits| ==> IsDigit(digits[i]))
        && (digits[0] == '0' ==> |digits| == 1)
    requires rest == "" || !IsDigit(rest[0])
    ensures IntegerEnd(digits + rest) == |digits|
  {
    CountAll(digits, rest);
    assert (digits + rest)[0..] == digits + rest && (digits + rest)[0] == digits[0];
  }

  lemma SignedEnd(digits: string, rest: string)
    requires digits != "" && (forall i :: 0 <= i < |digits| ==> IsDigit(digits[i]))
        && (digits[0] == '0' ==> |digits| == 1)
    requires rest == "" || !IsDigit(rest[0])
    ensures IntegerEnd(['-'] + digits + rest) == 1 + |digits|
  {
    CountAll(digits, rest);
    assert (['-'] + digits + rest)[1..] == digits + rest && (digits + rest)[0] == digits[0];
  }

  lemma IntegerRoundTrip(n: int, rest: string)
    requires EndsNumber(rest)
    ensures IntegerEnd(Decimal(n) + rest) == |Decimal(n)|
  {
    DigitsAreDigits(if n < 0 then -n else n);
    if n < 0 {
      SignedEnd(Digits(-n), rest);
    } else {
      UnsignedEnd(Digits(n), rest);
    }
  }

  /** A number without fraction and exponent ends where its integer part does. */
  lemma WholeNumber(s: string, rest: string)
    requires IntegerEnd(s) > 0 && s[IntegerEnd(s)..] == rest && EndsNumber(rest)
    ensures ReadNumber(s) == Ok(NumberOf(s[..IntegerEnd(s)], s[..IntegerEnd(s)]), rest)
  {
    var whole := IntegerEnd(s);
    assert FractionEnd(rest) == Some(0) && ExponentEnd(rest) == Some(0);
    assert s[whole + 0..] == rest && s[whole + 0 + 0..] == rest;
  }

  lemma DecimalValue(n: int)
    ensures IsInteger(Decimal(n)) && IntegerValue(Decimal(n)) == n
  {
    DigitsAreDigits(if n < 0 then -n else n);
    if n < 0 {
      assert Decimal(n)[1..] == Digits(-n);
    }
  }

  lemma NumberRoundTrip(n: int, rest: string)
    requires MIN_INT64 <= n <= MAX_INT64 && EndsNumber(rest)
    ensures ReadNumber(Decimal(n) + rest) == Ok(Int(n), rest)
  {
    var s := Decimal(n) + rest;
    IntegerRoundTrip(n, rest);
    DecimalValue(n);
    assert s[..|Decimal(n)|] == Decimal(n) && s[|Decimal(n)|..] == rest;
    WholeNumber(s, rest);
  }

  // ----- Every number of the grammar (section 6 of RFC 8259) -----

  predicate AllDigits(s: string) {
    forall i :: 0 <= i < |s| ==> IsDigit(s[i])
  }

  predicate IntegerPart(s: string) {
    var digits := if s != "" && s[0] == '-' then s[1..] else s;
    digits != "" && AllDigits(digits) && (digits[0] == '0' ==> |digits| == 1)
  }

  predicate FractionPart(s: string) {
    s == "" || (s[0] == '.' && |s| > 1 && AllDigits(s[1..]))
  }

  predicate ExponentPart(s: string) {
    s == "" ||
    (|s| > 1 && (s[0] == 'e' || s[0] == 'E') &&
     var digits := if s[1] == '+' || s[1] == '-' then s[2..] else s[1..];
     digits != "" && AllDigits(digits))
  }

  predicate NumberParts(integer: string, fraction: string, exponent: string) {
    IntegerPart(integer) && FractionPart(fraction) && ExponentPart(exponent)
  }

  lemma IntegerPartEnd(integer: string, rest: string)
    requires IntegerPart(integer) && (rest == "" || !IsDigit(rest[0]))
    ensures IsInteger(integer) && IntegerEnd(integer + rest) == |integer|
  {
    if integer[0] == '-' {
      assert forall i :: 1 <= i < |integer| ==> integer[i] == integer[1..][i - 1];
      assert integer == ['-'] + integer[1..];
      SignedEnd(integer[1..], rest);
    } else {
      UnsignedEnd(integer, rest);
    }
  }

  lemma FractionPartEnd(fraction: string, rest: string)
    requires FractionPart(fraction) && (rest == "" || (!IsDigit(rest[0]) && rest[0] != '.'))
    ensures FractionEnd(fraction + rest) == Some(|fraction|)
  {
    if fraction == "" {
      assert fraction + rest == rest;
    } else {
      CountAll(fraction[1..], rest);
      assert (fraction + rest)[1..] == fraction[1..] + rest;
    }
  }

  lemma ExponentPartEnd(exponent: string, rest: string)
    requires ExponentPart(exponent) && EndsNumber(rest)
    ensures ExponentEnd(exponent + rest) == Some(|exponent|)
  {
    if exponent == "" {
      assert exponent + rest == rest;
    } else {
      var sign := if exponent[1] == '+' || exponent[1] == '-' then 2 else 1;
      CountAll(exponent[sign..], rest);
      assert (exponent + rest)[sign..] == exponent[sign..] + rest;
    }
  }

  lemma ReadsParts(s: string, whole: nat, fraction: nat, exponent: nat)
    requires 0 < whole == IntegerEnd(s) && FractionEnd(s[whole..]) == Some(fraction)
    requires ExponentEnd(s[whole + fraction..]) == Some(exponent)
    ensures var end := whole + fraction + exponent;
            ReadNumber(s) == Ok(NumberOf(s[..whole], s[..end]), s[end..])
  {
  }

  lemma PartsOf(a: string, b: string, c: string, rest: string)
    ensures var s := a + b + c + rest;
            && s == a + (b + (c + rest)) && s[..|a|] == a && s[|a|..] == b + (c + rest)
            && s[|a| + |b|..] == c + rest && s[..|a| + |b| + |c|] == a + b + c && s[|a| + |b| + |c|..] == rest
  {
    assert a + b + c + rest == a + (b + (c + rest));
  }

  lemma PartsRead(integer: string, fraction: string, exponent: string, rest: string)
    requires NumberParts(integer, fraction, exponent) && EndsNumber(rest)
    ensures IsInteger(integer)
    ensures var lexeme := integer + fraction + exponent;
            ReadNumber(lexeme + rest) == Ok(NumberOf(integer, lexeme), rest)
  {
    var s := integer + fraction + exponent + rest;
    PartsOf(integer, fraction, exponent, rest);
    IntegerPartEnd(integer, fraction + (exponent + rest));
    FractionPartEnd(fraction, exponent + rest);
    ExponentPartEnd(exponent, rest);
    ReadsParts(s, |integer|, |fraction|, |exponent|);
  }

  /** What a number is read as: a 64-bit integer when it is written as one, else the number with all of its parts. */
  lemma NumberReads(integer: string, fraction: string, exponent: string, rest: string)
    requires NumberParts(integer, fraction, exponent) && EndsNumber(rest)
    ensures var lexeme := integer + fraction + exponent;
            ReadNumber(lexeme + rest) ==
              Ok(if fraction == exponent == "" && InRange(integer) then Int(IntegerValue(integer)) else Real(lexeme),
                 rest)
  {
    PartsRead(integer, fraction, exponent, rest);
    SameLength(integer, fraction, exponent);
  }

  lemma SameLength(integer: string, fraction: string, exponent: string)
    ensures integer + fraction + exponent == integer <==> fraction == exponent == ""
  {
    assert |integer + fraction + exponent| == |integer| + |fraction| + |exponent|;
  }

  predicate InRange(integer: string)
    requires IntegerPart(integer)
    ensures IsInteger(integer)
  {
    IntegerPartEnd(integer, "");
    MIN_INT64 <= IntegerValue(integer) <= MAX_INT64
  }

  /** The lexeme of a number that is not written as a 64-bit integer. */
  ghost predicate FloatOf(lexeme: string, integer: string, fraction: string, exponent: string) {
    NumberParts(integer, fraction, exponent) && lexeme == integer + fraction + exponent
    && !(fraction == exponent == "" && InRange(integer))
  }

  ghost predicate IsFloat(lexeme: string) {
    exists integer, fraction, exponent :: FloatOf(lexeme, integer, fraction, exponent)
  }

  lemma FloatStarts(lexeme: string)
    requires IsFloat(lexeme)
    ensures lexeme != "" && (lexeme[0] == '-' || IsDigit(lexeme[0]))
  {
    var integer, fraction, exponent :| FloatOf(lexeme, integer, fraction, exponent);
    assert lexeme[0] == integer[0];
  }

  lemma HexRoundTrip(d: nat)
    requires d < 16
    ensures HexValue(HexDigit(d)) == Some(d)
  {
  }

  lemma HexSum(n: nat)
    requires n < 0x10000
    ensures n / 4096 < 16
    ensures n / 4096 * 4096 + (n / 256 % 16) * 256 + (n / 16 % 16) * 16 + n % 16 == n
  {
    assert n / 16 == (n / 16 / 16) * 16 + n / 16 % 16;
    assert n / 16 / 16 == n / 256 && n / 256 / 16 == n / 4096;
  }

  lemma EscapeRoundTrip(n: nat, more: string)
    requires n < 0x10000
    ensures EscapedCode(HexEscape(n) + more) == Some(n)
  {
    var s := HexEscape(n) + more;
    HexRoundTrip(n / 4096);
    HexRoundTrip(n / 256 % 16);
    HexRoundTrip(n / 16 % 16);
    HexRoundTrip(n % 16);
    HexSum(n);
    assert s[0] == '\\' && s[1] == 'u';
    assert s[2] == HexDigit(n / 4096) && s[3] == HexDigit(n / 256 % 16) && s[4] == HexDigit(n / 16 % 16)
        && s[5] == HexDigit(n % 16);
  }

  lemma CharRoundTrip(c: char, more: string)
    ensures ReadChar(QuoteChar(c) + more) == Ok(c, more)
    ensures (QuoteChar(c) + more)[0] != '"'
  {
    var s := QuoteChar(c) + more;
    if |QuoteChar(c)| == 1 {
      assert s[1..] == more;
    } else if |QuoteChar(c)| == 2 {
      assert s[2..] == more;
    } else {
      EscapeRoundTrip(c as int, more);
      assert s[6..] == more;
    }
  }

  lemma {:induction false} BodyRoundTrip(text: string, rest: string)
    ensures ReadBody(BodyTo(text, ['"'] + rest)) == Ok(text, rest)
  {
    if text == "" {
      assert (['"'] + rest)[1..] == rest;
    } else {
      CharRoundTrip(text[0], BodyTo(text[1..], ['"'] + rest));
      BodyRoundTrip(text[1..], rest);
      assert [text[0]] + text[1..] == text;
    }
  }

  // ----- Print, then read: trees -----

  /** The values a stored document is made of: integers of 64 bits, and floats as they are written. */
  ghost predicate Printable(v: Tree)
    decreases v
  {
    match v
    case Real(lexeme) => IsFloat(lexeme)
    case Int(number) => MIN_INT64 <= number <= MAX_INT64
    case List(items) => forall i :: 0 <= i < |items| ==> Printable(items[i])
    case Map(members) => forall i :: 0 <= i < |members| ==> Printable(members[i].value)
    case _ => true
  }

  /** The printed form starts with neither a space nor a closing bracket. */
  lemma PrintHead(v: Tree, rest: string)
    requires Printable(v)
    ensures PrintTo(v, rest) != "" && !IsSpace(PrintTo(v, rest)[0])
    ensures PrintTo(v, rest)[0] != ']' && PrintTo(v, rest)[0] != '}' && PrintTo(v, rest)[0] != ','
  {
    if v.Int? {
      DigitsAreDigits(if v.number < 0 then -v.number else v.number);
    }
    if v.Real? {
      FloatStarts(v.lexeme);
    }
  }

  lemma WordRoundTrip(v: Tree, rest: string)
    requires v.Nil? || v.Flag?
    ensures ReadValue(PrintTo(v, rest)) == Ok(v, rest)
  {
    var s := PrintTo(v, rest);
    assert v.Nil? || (v.Flag? && v.flag) ==> s[4..] == rest;
    assert v.Flag? && !v.flag ==> s[5..] == rest;
  }

  lemma ReadsNumber(s: string)
    requires s != "" && (s[0] == '-' || IsDigit(s[0]))
    ensures ReadValue(s) == ReadNumber(s)
  {
    var r := ReadNumber(s);
    assert SkipSpace(s) == s;
    assert s[0] !in {'{', '[', '"', 'n', 't', 'f'};
    assert ReadValue(s) == r;
  }

  lemma IntRoundTrip(n: int, rest: string)
    requires MIN_INT64 <= n <= MAX_INT64 && EndsNumber(rest)
    ensures ReadValue(Decimal(n) + rest) == Ok(Int(n), rest)
  {
    DigitsAreDigits(if n < 0 then -n else n);
    NumberRoundTrip(n, rest);
    ReadsNumber(Decimal(n) + rest);
  }

  lemma FloatRoundTrip(lexeme: string, rest: string)
    requires IsFloat(lexeme) && EndsNumber(rest)
    ensures ReadValue(lexeme + rest) == Ok(Real(lexeme), rest)
  {
    var integer, fraction, exponent :| FloatOf(lexeme, integer, fraction, exponent);
    NumberReads(integer, fraction, exponent, rest);
    FloatStarts(lexeme);
    ReadsNumber(lexeme + rest);
  }

  lemma TextRoundTrip(text: string, rest: string)
    ensures ReadValue(QuoteTo(text, rest)) == Ok(Text(text), rest)
  {
    var s := QuoteTo(text, rest);
    assert s[1..] == BodyTo(text, ['"'] + rest);
    BodyRoundTrip(text, rest);
  }

  /**
   * Print then read is the identity: reading the printed form of any ordered tree gives the tree back, keys in their
   * order, and leaves the rest of the input as it was. Only a number needs to know what follows it.
   */
  lemma PrintThenRead(v: Tree, rest: string)
    requires Printable(v) && (v.Int? || v.Real? ==> EndsNumber(rest))
    ensures ReadValue(Print(v) + rest) == Ok(v, rest)
  {
    PrintIsPrefix(v, rest);
    RoundTrip(v, rest);
  }

  lemma {:induction false} RoundTrip(v: Tree, rest: string)
    requires Printable(v) && (v.Int? || v.Real? ==> EndsNumber(rest))
    ensures ReadValue(PrintTo(v, rest)) == Ok(v, rest)
    decreases v, 1
  {
    var s := PrintTo(v, rest);
    match v {
      case List(items) =>
        assert s[1..] == ItemsTo(items, true, [']'] + rest);
        ItemsRoundTrip(items, true, rest);
      case Map(members) =>
        assert s[1..] == MembersTo(members, true, ['}'] + rest);
        MembersRoundTrip(members, true, rest);
      case Nil => WordRoundTrip(v, rest);
      case Flag(_) => WordRoundTrip(v, rest);
      case Int(number) => IntRoundTrip(number, rest);
      case Text(text) => TextRoundTrip(text, rest);
      case Real(lexeme) => FloatRoundTrip(lexeme, rest);
    }
  }

  /** One element, with or without the comma before it, and what reads the others. */
  lemma ReadsItem(s: string, first: bool, start: string, item: Tree, more: string, items: seq<Tree>, rest: string)
    requires start != "" && !IsSpace(start[0]) && start[0] != ']' && start[0] != ','
    requires s == if first then start else [','] + start
    requires ReadValue(start) == Ok(item, more) && ReadItems(more, false) == Ok(items, rest)
    ensures ReadItems(s, first) == Ok([item] + items, rest)
  {
    assert !first ==> s[1..] == start;
    assert SkipSpace(s) == s && Separator(s, first) == Some(start);
  }

  lemma {:induction false} ItemsRoundTrip(items: seq<Tree>, first: bool, rest: string)
    requires forall i :: 0 <= i < |items| ==> Printable(items[i])
    ensures ReadItems(ItemsTo(items, first, [']'] + rest), first) == Ok(items, rest)
    decreases items, 0
  {
    if items == [] {
      EmptyItems(first, rest);
    } else {
      ItemsEnd(items[1..], rest);
      RoundTrip(items[0], ItemsTo(items[1..], false, [']'] + rest));
      ItemsRoundTrip(items[1..], false, rest);
      FirstItemRead(items, first, rest);
    }
  }

  /** The first item is read and then the others, given that each is. */
  lemma FirstItemRead(items: seq<Tree>, first: bool, rest: string)
    requires items != [] && Printable(items[0])
    requires var more := ItemsTo(items[1..], false, [']'] + rest);
             ReadValue(PrintTo(items[0], more)) == Ok(items[0], more) && ReadItems(more, false) == Ok(items[1..], rest)
    ensures ReadItems(ItemsTo(items, first, [']'] + rest), first) == Ok(items, rest)
  {
    var more := ItemsTo(items[1..], false, [']'] + rest);
    var start := PrintTo(items[0], more);
    var s := if first then start else [','] + start;
    PrintHead(items[0], more);
    assert ItemsTo(items, first, [']'] + rest) == s;
    ReadsItem(s, first, start, items[0], more, items[1..], rest);
    assert [items[0]] + items[1..] == items;
  }

  lemma EmptyItems(first: bool, rest: string)
    ensures ReadItems(ItemsTo([], first, [']'] + rest), first) == Ok([], rest)
  {
    assert ([']'] + rest)[1..] == rest;
  }

  lemma KeyRoundTrip(key: string, rest: string)
    ensures ReadKey(QuoteTo(key, [':'] + rest)) == Ok(key, rest)
  {
    var s := QuoteTo(key, [':'] + rest);
    assert s[1..] == BodyTo(key, ['"'] + ([':'] + rest));
    BodyRoundTrip(key, [':'] + rest);
    assert ([':'] + rest)[1..] == rest;
  }

  lemma ReadsMember(s: string, first: bool, start: string, member: Member, value: string, more: string,
      members: seq<Member>, rest: string)
    requires start != "" && start[0] == '"'
    requires s == if first then start else [','] + start
    requires ReadKey(start) == Ok(member.key, value) && ReadValue(value) == Ok(member.value, more)
    requires ReadMembers(more, false) == Ok(members, rest)
    ensures ReadMembers(s, first) == Ok([member] + members, rest)
  {
    assert !first ==> s[1..] == start;
    assert SkipSpace(s) == s && Separator(s, first) == Some(start);
  }

  lemma {:induction false} MembersRoundTrip(members: seq<Member>, first: bool, rest: string)
    requires forall i :: 0 <= i < |members| ==> Printable(members[i].value)
    ensures ReadMembers(MembersTo(members, first, ['}'] + rest), first) == Ok(members, rest)
    decreases members, 0
  {
    if members == [] {
      EmptyMembers(first, rest);
    } else {
      MembersEnd(members[1..], rest);
      RoundTrip(members[0].value, MembersTo(members[1..], false, ['}'] + rest));
      MembersRoundTrip(members[1..], false, rest);
      FirstMemberRead(members, first, rest);
    }
  }

  lemma FirstMemberRead(members: seq<Member>, first: bool, rest: string)
    requires members != []
    requires var more, value := MembersTo(members[1..], false, ['}'] + rest), members[0].value;
             ReadValue(PrintTo(value, more)) == Ok(value, more) && ReadMembers(more, false) == Ok(members[1..], rest)
    ensures ReadMembers(MembersTo(members, first, ['}'] + rest), first) == Ok(members, rest)
  {
    var more := MembersTo(members[1..], false, ['}'] + rest);
    var value := PrintTo(members[0].value, more);
    var start := QuoteTo(members[0].key, [':'] + value);
    var s := if first then start else [','] + start;
    KeyRoundTrip(members[0].key, value);
    assert MembersTo(members, first, ['}'] + rest) == s;
    ReadsMember(s, first, start, members[0], value, more, members[1..], rest);
    assert [members[0]] + members[1..] == members;
  }

  lemma EmptyMembers(first: bool, rest: string)
    ensures ReadMembers(MembersTo([], first, ['}'] + rest), first) == Ok([], rest)
  {
    assert (['}'] + rest)[1..] == rest;
  }

  /** A number printed before the remaining elements is followed by a comma or a bracket. */
  lemma ItemsEnd(items: seq<Tree>, rest: string)
    ensures EndsNumber(ItemsTo(items, false, [']'] + rest))
  {
  }

  lemma MembersEnd(members: seq<Member>, rest: string)
    ensures EndsNumber(MembersTo(members, false, ['}'] + rest))
  {
  }
}
