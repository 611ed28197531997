/** The line buffer over a task's streamed output (internal/machines/progress_scan.go). Characters stand for bytes. */
module Progress {
  import opened GoStrings

  const MARKER := "PROGRESS::"
  const LIMIT: nat := 64 * 1024
  const KEPT: nat := 4096

  /** `caption` is the payload's label. */
  datatype Payload = Payload(percent: real, done: bool, caption: string, running: Option<string>)

  datatype Report = Report(percent: int, description: string)

  /** JSON decoding of a payload, and strings.TrimSpace. */
  datatype Library = Library(parse: string -> Option<Payload>, trim: string -> string)

  /** The text up to and including its last closing brace, all of it when there is none. */
  function UpToBrace(payload: string): string {
    if payload == "" || payload[|payload| - 1] == '}' then payload
    else if '}' !in payload then payload
    else UpToBrace(payload[..|payload| - 1])
  }

  /** scanLine: what one complete line reports, if anything. */
  function ReportOf(lib: Library, line: string): (report: Option<Report>)
    ensures report.Some? ==> 0 <= report.value.percent <= 100 && report.value.description != ""
    ensures report.Some? ==> Index(line, MARKER).Some?
  {
    match Index(line, MARKER)
    case None => None
    case Some(start) =>
      match lib.parse(UpToBrace(line[start + |MARKER|..]))
      case None => None
      case Some(p) => PayloadReport(lib, p)
  }

  function PayloadReport(lib: Library, p: Payload): (report: Option<Report>)
    ensures report.Some? ==> 0 <= report.value.percent <= 100 && report.value.description != ""
  {
    if p.percent < 0.0 || p.percent > 100.0 then None
    else
      var name := lib.trim(p.caption);
      var described := if name == "" && p.running.Some? then p.running.value else name;
      var description := if p.done && described == "" then "completed" else described;
      if description == "" then None else Some(Report((p.percent + 0.5).Floor, description))
  }

  /** The text of a report: the caption, else what runs, else that all is done. */
  predicate Describes(lib: Library, p: Payload, description: string) {
    var caption := lib.trim(p.caption);
    if caption != "" then description == caption
    else if p.running.Some? && p.running.value != "" then description == p.running.value
    else p.done && description == "completed"
  }

  /** The payload is reported so: its percentage to the nearest whole number, halves up. */
  predicate ReportedAs(lib: Library, p: Payload, report: Report) {
    && 0.0 <= p.percent <= 100.0
    && (report.percent as real) - 0.5 <= p.percent < (report.percent as real) + 0.5
    && report.description != "" && Describes(lib, p, report.description)
  }

  lemma PayloadReportExactly(lib: Library, p: Payload, report: Report)
    ensures PayloadReport(lib, p) == Some(report) <==> ReportedAs(lib, p, report)
  {
    NearestWhole(p.percent, report.percent);
    assert report == Report(report.percent, report.description);
  }

  /**
   * Exactly what a line reports: its first marker is followed by a payload, up to the last closing brace, whose
   * percentage lies between 0 and 100 and which describes something.
   */
  lemma ReportExactly(lib: Library, line: string, report: Report)
    ensures ReportOf(lib, line) == Some(report) <==>
            var start := Index(line, MARKER);
            start.Some? &&
            var payload := lib.parse(UpToBrace(line[start.value + |MARKER|..]));
            payload.Some? && ReportedAs(lib, payload.value, report)
  {
    if Index(line, MARKER).Some? {
      var payload := lib.parse(UpToBrace(line[Index(line, MARKER).value + |MARKER|..]));
      if payload.Some? { PayloadReportExactly(lib, payload.value, report); }
    }
  }

  lemma NearestWhole(x: real, n: int)
    ensures (x + 0.5).Floor == n <==> (n as real) - 0.5 <= x < (n as real) + 0.5
  {
  }

  /** The payload ends with its last closing brace, if it has one. */
  lemma {:induction false} UpToBraceExactly(payload: string)
    ensures UpToBrace(payload) <= payload
    ensures '}' !in payload ==> UpToBrace(payload) == payload
    ensures '}' in payload ==> UpToBrace(payload) != "" && UpToBrace(payload)[|UpToBrace(payload)| - 1] == '}'
                               && '}' !in payload[|UpToBrace(payload)|..]
  {
    if payload != "" && payload[|payload| - 1] != '}' && '}' in payload {
      var shorter := payload[..|payload| - 1];
      assert payload == shorter + [payload[|payload| - 1]];
      UpToBraceExactly(shorter);
      assert payload[|UpToBrace(shorter)|..] == shorter[|UpToBrace(shorter)|..] + [payload[|payload| - 1]];
    }
  }

  function ReportsOf(lib: Library, lines: seq<string>): seq<Report> {
    if lines == [] then []
    else
      var earlier := ReportsOf(lib, lines[..|lines| - 1]);
      match ReportOf(lib, lines[|lines| - 1])
      case None => earlier
      case Some(report) => earlier + [report]
  }

  /** The complete lines of a text, and what follows the last newline. */
  function LinesOf(text: string): seq<string>
    decreases |text|
  {
    if '\n' !in text then [] else CutShorter(text); [CutBefore(text, '\n')] + LinesOf(CutAfter(text, '\n'))
  }

  function TailOf(text: string): string
    decreases |text|
  {
    if '\n' !in text then text else CutShorter(text); TailOf(CutAfter(text, '\n'))
  }

  function Truncated(text: string): string {
    if |text| > LIMIT then text[|text| - KEPT..] else text
  }

  lemma {:induction false} CutShorter(text: string)
    requires '\n' in text
    ensures |CutAfter(text, '\n')| < |text|
    ensures '\n' !in CutBefore(text, '\n')
    ensures text == CutBefore(text, '\n') + "\n" + CutAfter(text, '\n')
  {
    if text[0] != '\n' {
      CutShorter(text[1..]);
    }
  }

  datatype Chunk = Chunk(stream: string, data: string)

  class ProgressScanner {
    const lib: Library
    var buf: string
    var reports: seq<Report>

    constructor (lib: Library)
      ensures this.lib == lib && buf == "" && reports == []
    {
      this.lib, buf, reports := lib, "", [];
    }

    /** Scan: drains the complete lines, then keeps the rest, cut to its end when it grew too long. */
    method Scan(chunk: Chunk)
      modifies this
      ensures chunk.stream != "stdout" ==> buf == old(buf) && reports == old(reports)
      ensures chunk.stream == "stdout" ==>
        buf == Truncated(TailOf(old(buf) + chunk.data)) && reports ==
            old(reports) + ReportsOf(lib, LinesOf(old(buf) + chunk.data))
    {
      if chunk.stream != "stdout" {
        return;
      }
      var text := Drain(buf + chunk.data);
      if |text| > LIMIT {
        text := text[|text| - KEPT..];
      }
      buf := text;
    }

    /** The loop of Scan: one scanLine per complete line. */
    method Drain(whole: string) returns (text: string)
      modifies this`reports
      ensures text == TailOf(whole) && reports == old(reports) + ReportsOf(lib, LinesOf(whole))
    {
      text := whole;
      ghost var lines := [];
      while '\n' in text
        invariant lines + LinesOf(text) == LinesOf(whole) && TailOf(text) == TailOf(whole)
        invariant reports == old(reports) + ReportsOf(lib, lines)
        decreases |text|
      {
        CutShorter(text);
        var line := CutBefore(text, '\n');
        ScanLine(line);
        ReportsAppend(lib, lines, [line]);
        assert lines + LinesOf(text) == (lines + [line]) + LinesOf(CutAfter(text, '\n'));
        lines := lines + [line];
        text := CutAfter(text, '\n');
      }
      assert lines + [] == lines;
    }

    method ScanLine(line: string)
      modifies this`reports
      ensures reports == old(reports) + ReportsOf(lib, [line])
    {
      assert [line][..0] == [];
      var report := ReportOf(lib, line);
      if report.Some? {
        reports := reports + [report.value];
      }
    }
  }

  // ----- Lines and reports, one by one -----

  /** The text as its complete lines, each with its newline, and then the rest. */
  function Joined(lines: seq<string>, rest: string): string {
    if lines == [] then rest else lines[0] + "\n" + Joined(lines[1..], rest)
  }

  /** The lines and the rest are the text cut at its newlines: nothing is lost, and none holds a newline. */
  lemma {:induction false} LinesRebuild(text: string)
    ensures Joined(LinesOf(text), TailOf(text)) == text
    ensures '\n' !in TailOf(text) && forall i :: 0 <= i < |LinesOf(text)| ==> '\n' !in LinesOf(text)[i]
    decreases |text|
  {
    if '\n' in text {
      CutShorter(text);
      LinesRebuild(CutAfter(text, '\n'));
    }
  }

  /** An unfinished line of more than 64 KiB is cut to its last 4096 characters, any other is kept whole. */
  lemma TruncatedExactly(text: string)
    ensures |text| <= 65536 ==> Truncated(text) == text
    ensures |text| > 65536 ==> |Truncated(text)| == 4096 && text == text[..|text| - 4096] + Truncated(text)
  {
  }

  /** The reports are those of the lines at the given places, which are all that report anything, in order. */
  ghost predicate ReportsAt(lib: Library, lines: seq<string>, reports: seq<Report>, at: seq<nat>) {
    && |at| == |reports| && (forall k, l :: 0 <= k < l < |at| ==> at[k] < at[l])
    && (forall k :: 0 <= k < |at| ==> at[k] < |lines| && ReportOf(lib, lines[at[k]]) == Some(reports[k]))
    && (forall i :: 0 <= i < |lines| && ReportOf(lib, lines[i]).Some? ==> i in at)
  }

  /** One report for every line that reports something, and no other, in the order of the lines. */
  lemma {:induction false} ReportsInOrder(lib: Library, lines: seq<string>) returns (at: seq<nat>)
    ensures ReportsAt(lib, lines, ReportsOf(lib, lines), at)
    decreases |lines|
  {
    at := [];
    if lines != [] {
      var earlier, last := lines[..|lines| - 1], |lines| - 1;
      at := ReportsInOrder(lib, earlier);
      if ReportOf(lib, lines[last]).Some? {
        at := at + [last];
      }
    }
  }

  // ----- The buffer refines the whole stream -----

  /** The lines handed to scanLine, and the buffer, after a run of chunks. */
  function Fed(chunks: seq<Chunk>): (seq<string>, string)
    decreases |chunks|
  {
    if chunks == [] then ([], "")
    else
      var (lines, buf) := Fed(chunks[..|chunks| - 1]);
      var chunk := chunks[|chunks| - 1];
      if chunk.stream != "stdout" then (lines, buf)
      else (lines + LinesOf(buf + chunk.data), Truncated(TailOf(buf + chunk.data)))
  }

  /** All the data of stdout. */
  function Stdout(chunks: seq<Chunk>): string {
    if chunks == [] then ""
    else
      var chunk := chunks[|chunks| - 1];
      Stdout(chunks[..|chunks| - 1]) + if chunk.stream == "stdout" then chunk.data else ""
  }

  predicate IsSuffix(part: string, whole: string) {
    |part| <= |whole| && part == whole[|whole| - |part|..]
  }

  /** Cut at its beginning, and only when the whole is longer than the limit. */
  predicate CutOf(part: string, whole: string) {
    IsSuffix(part, whole) && (|whole| <= LIMIT ==> part == whole)
  }

  predicate LinesCutOf(parts: seq<string>, wholes: seq<string>) {
    |parts| == |wholes| && forall i :: 0 <= i < |parts| ==> CutOf(parts[i], wholes[i])
  }

  lemma {:induction false} TailHasNoNewline(text: string)
    ensures '\n' !in TailOf(text)
    decreases |text|
  {
    if '\n' in text {
      CutShorter(text);
      TailHasNoNewline(CutAfter(text, '\n'));
    }
  }

  lemma {:induction false} CutAcross(text: string, more: string)
    ensures '\n' in text ==>
              CutBefore(text + more, '\n') == CutBefore(text, '\n')
              && CutAfter(text + more, '\n') == CutAfter(text, '\n') + more
    ensures '\n' !in text && '\n' in more ==>
              CutBefore(text + more, '\n') == text + CutBefore(more, '\n')
              && CutAfter(text + more, '\n') == CutAfter(more, '\n')
  {
    if text != "" {
      assert (text + more)[1..] == text[1..] + more;
      if text[0] != '\n' { CutAcross(text[1..], more); }
    } else {
      assert text + more == more;
    }
  }

  /** More data continues the tail and leaves the lines before it alone. */
  lemma {:induction false} LinesContinue(text: string, more: string)
    ensures LinesOf(text + more) == LinesOf(text) + LinesOf(TailOf(text) + more)
    ensures TailOf(text + more) == TailOf(TailOf(text) + more)
    decreases |text|
  {
    if '\n' in text {
      CutShorter(text);
      CutAcross(text, more);
      LinesContinue(CutAfter(text, '\n'), more);
    }
  }

  lemma SuffixAppend(part: string, whole: string, more: string)
    requires IsSuffix(part, whole)
    ensures IsSuffix(part + more, whole + more)
  {
    assert whole == whole[..|whole| - |part|] + part;
    assert whole + more == whole[..|whole| - |part|] + (part + more);
  }

  lemma TruncatedIsCut(part: string, whole: string)
    requires CutOf(part, whole)
    ensures CutOf(Truncated(part), whole) && |Truncated(part)| <= LIMIT
  {
    if |part| > LIMIT {
      assert part == whole[|whole| - |part|..];
      assert part[|part| - KEPT..] == whole[|whole| - KEPT..];
    }
  }

  /** A cut tail continued gives cut lines, as many of them. */
  lemma CutContinues(part: string, whole: string, more: string)
    requires CutOf(part, whole) && '\n' !in whole
    ensures LinesCutOf(LinesOf(part + more), LinesOf(whole + more))
    ensures CutOf(TailOf(part + more), TailOf(whole + more))
  {
    assert forall c :: c in part ==> c in whole;
    if '\n' in more {
      SuffixAppend(part, whole, CutBefore(more, '\n'));
      FirstLine(part, more);
      FirstLine(whole, more);
    } else {
      SuffixAppend(part, whole, more);
    }
  }

  lemma FirstLine(text: string, more: string)
    requires '\n' !in text && '\n' in more
    ensures LinesOf(text + more) == [text + CutBefore(more, '\n')] + LinesOf(CutAfter(more, '\n'))
    ensures TailOf(text + more) == TailOf(CutAfter(more, '\n'))
  {
    CutAcross(text, more);
    assert '\n' in text + more;
  }

  /**
   * For every stream and every way it is cut into chunks, with any stderr in between: as many lines are scanned as the
   * whole stdout has, each is the true line unless that is longer than 64 KiB, in which case it is a suffix of it; the
   * buffer is the unfinished line in the same sense, and never longer than 64 KiB.
   */
  lemma {:induction false} BufferRefinesStream(chunks: seq<Chunk>)
    ensures LinesCutOf(Fed(chunks).0, LinesOf(Stdout(chunks)))
    ensures CutOf(Fed(chunks).1, TailOf(Stdout(chunks)))
    ensures |Fed(chunks).1| <= LIMIT
    decreases |chunks|
  {
    if chunks != [] {
      var earlier, chunk := chunks[..|chunks| - 1], chunks[|chunks| - 1];
      BufferRefinesStream(earlier);
      if chunk.stream == "stdout" {
        ChunkRefines(Fed(earlier).0, Fed(earlier).1, Stdout(earlier), chunk.data);
      } else {
        assert Stdout(chunks) == Stdout(earlier);
      }
    }
  }

  /** One chunk of stdout, from lines and a buffer that refine the text so far. */
  lemma ChunkRefines(lines: seq<string>, buf: string, text: string, data: string)
    requires LinesCutOf(lines, LinesOf(text)) && CutOf(buf, TailOf(text))
    ensures LinesCutOf(lines + LinesOf(buf + data), LinesOf(text + data))
    ensures CutOf(Truncated(TailOf(buf + data)), TailOf(text + data)) && |Truncated(TailOf(buf + data))| <= LIMIT
  {
    TailHasNoNewline(text);
    LinesContinue(text, data);
    CutContinues(buf, TailOf(text), data);
    TruncatedIsCut(TailOf(buf + data), TailOf(TailOf(text) + data));
  }

  /** Where no line exceeds 64 KiB, the scanned lines are the lines of the stream, however it was cut into chunks. */
  lemma ChunkingDoesNotMatter(lib: Library, chunks: seq<Chunk>, others: seq<Chunk>)
    requires Stdout(chunks) == Stdout(others)
    requires forall i :: 0 <= i < |LinesOf(Stdout(chunks))| ==> |LinesOf(Stdout(chunks))[i]| <= LIMIT
    ensures ReportsOf(lib, Fed(chunks).0) == ReportsOf(lib, LinesOf(Stdout(chunks)))
    ensures ReportsOf(lib, Fed(chunks).0) == ReportsOf(lib, Fed(others).0)
  {
    FittingLinesAreScanned(chunks);
    FittingLinesAreScanned(others);
  }

  /** The text up to the end of line `k`, its newline being the next character. */
  lemma {:induction false} LineEnd(text: string, k: nat) returns (cut: nat)
    requires k < |LinesOf(text)|
    ensures cut < |text| && text[cut] == '\n' && TailOf(text[..cut]) == LinesOf(text)[k]
        && LinesOf(text[..cut]) == LinesOf(text)[..k]
    decreases |text|
  {
    CutShorter(text);
    var line, after := CutBefore(text, '\n'), CutAfter(text, '\n');
    if k == 0 {
      cut := |line|;
      assert text[..cut] == line;
    } else {
      var inner := LineEnd(after, k - 1);
      cut := |line| + 1 + inner;
      assert text[..cut] == (line + "\n") + after[..inner];
      assert "\n"[0] == '\n' && '\n' in line + "\n";
      CutOff(line, after[..inner]);
    }
  }

  lemma {:induction false} CutOff(line: string, after: string)
    requires '\n' !in line
    ensures '\n' in (line + "\n") + after
    ensures CutBefore((line + "\n") + after, '\n') == line && CutAfter((line + "\n") + after, '\n') == after
  {
    var text := (line + "\n") + after;
    assert text[|line|] == '\n';
    if line != "" {
      assert text[1..] == (line[1..] + "\n") + after;
      CutOff(line[1..], after);
    } else {
      assert text[1..] == after;
    }
  }

  /** A chunk that ends inside an overlong line costs its beginning. */
  lemma OverlongLineIsCut(text: string, k: nat) returns (cut: nat)
    requires k < |LinesOf(text)| && |LinesOf(text)[k]| > LIMIT
    ensures cut <= |text|
    ensures var lines := Fed([Chunk("stdout", text[..cut]), Chunk("stdout", text[cut..])]).0;
        k < |lines| && |lines[k]| == KEPT
  {
    cut := LineEnd(text, k);
    var before, after := text[..cut], text[cut..];
    var chunks := [Chunk("stdout", before), Chunk("stdout", after)];
    FedOne(before);
    assert chunks[..1] == [chunks[0]];
    var kept := Truncated(TailOf(before));
    TailHasNoNewline(before);
    assert Fed(chunks).0 == LinesOf(before) + LinesOf(kept + after);
    assert after == ("\n") + text[cut + 1..] && kept + after == (kept + "\n") + text[cut + 1..];
    CutOff(kept, text[cut + 1..]);
    assert LinesOf(kept + after)[0] == kept;
  }

  lemma FedOne(data: string)
    ensures Fed([Chunk("stdout", data)]) == (LinesOf(data), Truncated(TailOf(data)))
  {
    var chunks := [Chunk("stdout", data)];
    assert chunks[..0] == [] && "" + data == data && [] + LinesOf(data) == LinesOf(data);
  }

  lemma FittingLinesAreScanned(chunks: seq<Chunk>)
    requires forall i :: 0 <= i < |LinesOf(Stdout(chunks))| ==> |LinesOf(Stdout(chunks))[i]| <= LIMIT
    ensures Fed(chunks).0 == LinesOf(Stdout(chunks))
  {
    BufferRefinesStream(chunks);
    var lines, wholes := Fed(chunks).0, LinesOf(Stdout(chunks));
    assert forall i :: 0 <= i < |wholes| ==> lines[i] == wholes[i];
  }

  lemma OverlongLineShows(text: string, k: nat) returns (chunks: seq<Chunk>)
    requires k < |LinesOf(text)| && |LinesOf(text)[k]| > LIMIT
    ensures Stdout(chunks) == text && Fed(chunks).0 != LinesOf(text)
  {
    var cut := OverlongLineIsCut(text, k);
    chunks := [Chunk("stdout", text[..cut]), Chunk("stdout", text[cut..])];
    StdoutOfTwo(text[..cut], text[cut..]);
    assert text[..cut] + text[cut..] == text;
  }

  /**
   * The bound is exact: the scanned lines are those of the text, however it is cut into chunks, if and only if none
   * exceeds it.
   */
  lemma ChunkingExactly(text: string)
    ensures (forall chunks :: Stdout(chunks) == text ==> Fed(chunks).0 == LinesOf(text))
            <==> forall i :: 0 <= i < |LinesOf(text)| ==> |LinesOf(text)[i]| <= LIMIT
  {
    if k :| 0 <= k < |LinesOf(text)| && |LinesOf(text)[k]| > LIMIT {
      var chunks := OverlongLineShows(text, k);
    } else {
      forall chunks | Stdout(chunks) == text ensures Fed(chunks).0 == LinesOf(text) {
        FittingLinesAreScanned(chunks);
      }
    }
  }

  lemma StdoutOfTwo(first: string, second: string)
    ensures Stdout([Chunk("stdout", first), Chunk("stdout", second)]) == first + second
  {
    var chunks := [Chunk("stdout", first), Chunk("stdout", second)];
    assert chunks[..1] == [chunks[0]] && chunks[..1][..0] == [];
    assert "" + first == first;
    assert Stdout(chunks[..1]) == first;
  }

  /** A scanner fed chunk by chunk reports what the fed lines report. */
  lemma {:induction false} ReportsAppend(lib: Library, earlier: seq<string>, later: seq<string>)
    ensures ReportsOf(lib, earlier + later) == ReportsOf(lib, earlier) + ReportsOf(lib, later)
    decreases |later|
  {
    if later == [] {
      assert earlier + later == earlier;
    } else {
      ReportsAppend(lib, earlier, later[..|later| - 1]);
      assert (earlier + later)[..|earlier + later| - 1] == earlier + later[..|later| - 1];
    }
  }

  /** The scanner's own run over a list of chunks. */
  method ScanAll(lib: Library, chunks: seq<Chunk>) returns (reports: seq<Report>, rest: string)
    ensures reports == ReportsOf(lib, Fed(chunks).0) && rest == Fed(chunks).1
  {
    var scanner := new ProgressScanner(lib);
    for i := 0 to |chunks|
      invariant scanner.lib == lib && fresh(scanner)
      invariant scanner.reports == ReportsOf(lib, Fed(chunks[..i]).0) && scanner.buf == Fed(chunks[..i]).1
    {
      assert chunks[..i + 1][..i] == chunks[..i];
      ReportsAppend(lib, Fed(chunks[..i]).0, LinesOf(Fed(chunks[..i]).1 + chunks[i].data));
      scanner.Scan(chunks[i]);
    }
    assert chunks[..|chunks|] == chunks;
    return scanner.reports, scanner.buf;
  }
}
