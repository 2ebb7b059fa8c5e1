/** The fact-check service (executors/validation_service.py): asks the
    model to check a node's content, parses the report between the
    `[SUMMARY VALIDATION]` markers and retries a bounded number of times.
    Each chat call is an oracle; a failure while building the prompts is a
    parameter. */
module ValidationService {
  import opened Common
  import opened Text
  import opened Json

  const StartMarker := "[SUMMARY VALIDATION]"
  const EndMarker := "[END SUMMARY VALIDATION]"
  const DefaultStatus := "INVALID"
  const DefaultError := "Failed to get valid response after all retries"

  /** `_parse_validation_response`'s dictionary. */
  datatype Report = Report(status: string, issues: seq<string>, evidence: seq<string>)

  // -----------------------------------------------------------------------
  // Parsing the report

  /** What one line of the report section means to the parser. */
  datatype ReportLine =
    | StatusLine(value: string)
    | IssuesHeader
    | EvidenceHeader
    | ItemLine(item: string)
    | OtherLine

  /** A stripped line is matched against `STATUS:`, `ISSUES:`, `EVIDENCE:` and
      a leading dash, in that order. */
  function ClassifyReportLine(line: string): ReportLine {
    if line == "" then OtherLine
    else if StartsWith(line, "STATUS:") then StatusLine(FieldValue(line))
    else if StartsWith(line, "ISSUES:") then IssuesHeader
    else if StartsWith(line, "EVIDENCE:") then EvidenceHeader
    else if StartsWith(line, "-") then ItemLine(Strip(line[1..]))
    else OtherLine
  }

  /** Each line of the section, stripped and classified. */
  function ClassifyReportLines(lines: seq<string>): (r: seq<ReportLine>)
    ensures |r| == |lines|
    ensures forall k :: 0 <= k < |lines| ==> r[k] == ClassifyReportLine(Strip(lines[k]))
  {
    seq(|lines|, k requires 0 <= k < |lines| => ClassifyReportLine(Strip(lines[k])))
  }

  /** The list a dash line is appended to: the one whose header came last. */
  datatype ListKind = Issues | Evidence

  /** The parser's variables: the result being filled and the list a
      dash line goes to. */
  datatype ReportScan = ReportScan(status: string, issues: seq<string>, evidence: seq<string>,
                                   current: Option<ListKind>)
  {
    function Parsed(): Report {
      Report(status, issues, evidence)
    }
  }

  const Initial := ReportScan(DefaultStatus, [], [], None)

  function Collect(st: ReportScan, line: ReportLine): ReportScan {
    match line
    case StatusLine(v) => st.(status := v)
    case IssuesHeader => st.(current := Some(Issues))
    case EvidenceHeader => st.(current := Some(Evidence))
    case ItemLine(item) =>
      if st.current == Some(Issues) then st.(issues := st.issues + [item])
      else if st.current == Some(Evidence) then st.(evidence := st.evidence + [item])
      else st
    case OtherLine => st
  }

  /** The parser's loop over the classified lines. */
  function CollectAll(st: ReportScan, lines: seq<ReportLine>): ReportScan
    decreases |lines|
  {
    if |lines| == 0 then st
    else Collect(CollectAll(st, lines[..|lines| - 1]), lines[|lines| - 1])
  }

  /** The text after the first start marker, up to the first end marker
      after it (and before any second start marker), stripped. */
  function Section(response: string): string
    requires Contains(response, StartMarker)
  {
    SplitPieces(response, StartMarker);
    Strip(Split(Split(response, StartMarker)[1], EndMarker)[0])
  }

  /** `_parse_validation_response(response)`; None is the method's None. */
  function ParseReport(response: string): (r: Option<Report>)
    ensures r.Some? <==> Contains(response, StartMarker) && Contains(response, EndMarker)
    ensures r.Some? ==> r.value == CollectAll(Initial, ClassifyReportLines(Split(Section(response), "\n"))).Parsed()
  {
    if !Contains(response, StartMarker) || !Contains(response, EndMarker) then None
    else Some(CollectAll(Initial, ClassifyReportLines(Split(Section(response), "\n"))).Parsed())
  }

  /** One attempt's report: the stripped reply parsed; a failed chat call
      counts as an unparsable attempt. */
  function ParseReply(reply: CallOutcome): Option<Report> {
    match reply
    case Reply(text) => ParseReport(Strip(text))
    case CallFailed(_) => None
  }

  // -----------------------------------------------------------------------
  // The retry loop

  /** The report the loop ends with, and the number of chat calls made. */
  datatype Attempts = Attempts(report: Option<Report>, calls: nat)

  /** `for attempt in range(max_retries)` from `attempt` on; `parsed(k)` is
      what the k-th chat call's reply parses to. */
  function Attempt(parsed: nat -> Option<Report>, attempt: nat, maxRetries: int): (r: Attempts)
    decreases maxRetries - attempt
    // the first parsable reply ends the loop
    ensures r.report.Some? ==>
      attempt < r.calls <= maxRetries && r.report == parsed(r.calls - 1)
      && forall k :: attempt <= k < r.calls - 1 ==> parsed(k).None?
    // otherwise every remaining attempt is spent
    ensures r.report.None? ==>
      r.calls == (if attempt < maxRetries then maxRetries else attempt)
      && forall k :: attempt <= k < maxRetries ==> parsed(k).None?
  {
    if attempt >= maxRetries then Attempts(None, attempt)
    else match parsed(attempt)
      case Some(rep) => Attempts(Some(rep), attempt + 1)
      case None => Attempt(parsed, attempt + 1, maxRetries)
  }

  // -----------------------------------------------------------------------
  // validate_node_content

  /** The result dictionary: status, the normalised content, the issues
      and evidence lists, and the error text on a failed validation. */
  datatype Checked = Checked(status: string, content: Value, issues: seq<string>,
                             evidence: seq<string>, error: Option<string>)

  datatype Validation = Validation(result: Checked, calls: nat)

  /** The fields every content dictionary is completed with, and their
      defaults. */
  const ContentDefaults: seq<(string, Value)> := [
    ("detailed_results", Str("")),
    ("layer_summary", Str("")),
    ("raw_results", List([])),
    ("categories", Dict(map[])),
    ("analysis_content", Dict(map[]))
  ]

  /** `d.setdefault(k, v)` for each default in turn. */
  function SetDefaults(m: map<string, Value>, defaults: seq<(string, Value)>): (r: map<string, Value>)
    decreases |defaults|
    ensures forall k :: k in m ==> k in r && r[k] == m[k]
    ensures forall i :: 0 <= i < |defaults| ==> defaults[i].0 in r
    ensures forall k :: k in r ==> k in m || exists i :: 0 <= i < |defaults| && defaults[i] == (k, r[k])
  {
    if |defaults| == 0 then m
    else
      var (k, v) := defaults[0];
      var m1 := if k in m then m else m[k := v];
      var r := SetDefaults(m1, defaults[1..]);
      assert forall j :: j in r && j !in m1 ==> exists i :: 0 <= i < |defaults| - 1 && defaults[1..][i] == (j, r[j]);
      r
  }

  /** The content as the service sees it: a string becomes the detailed
      results of an otherwise empty record, a dictionary is completed with
      the defaults, and anything else raises on `setdefault`. */
  function Normalise(content: Value): (r: Result<Value, string>)
    ensures r.Ok? <==> content.Str? || content.Dict?
    ensures r.Ok? ==> r.value.Dict?
  {
    match content
    case Str(_) => Ok(Dict(SetDefaults(map["detailed_results" := content], ContentDefaults)))
    case Dict(m) => Ok(Dict(SetDefaults(m, ContentDefaults)))
    case _ => Err("'" + TypeName(content) + "' object has no attribute 'setdefault'")
  }

  /** The content of a failed validation: every field at its default. */
  const EmptyContent := Dict(map[
    "detailed_results" := Str(""),
    "layer_summary" := Str(""),
    "raw_results" := List([]),
    "categories" := Dict(map[]),
    "analysis_content" := Dict(map[])
  ])

  /** `_generate_failed_validation(error_msg)`; an empty message, like a
      missing one, gives the default text. */
  function FailedValidation(message: string): (r: Checked)
    ensures r.status == "FAILED" && r.content == EmptyContent && r.issues == [] && r.evidence == []
    ensures r.error == Some(if message == "" then DefaultError else message)
  {
    Checked("FAILED", EmptyContent, [], [], Some(if message == "" then DefaultError else message))
  }

  /** What each chat call's reply parses to. */
  function ReplyReports(reply: nat -> CallOutcome): nat -> Option<Report> {
    (k: nat) => ParseReply(reply(k))
  }

  /** `validate_node_content(content)`. `promptFailure` is the text of an
      exception raised while building the prompts, if any. */
  function ValidateNodeContent(content: Value, promptFailure: Option<string>, maxRetries: int,
                               reply: nat -> CallOutcome): (v: Validation)
    // never more chat calls than the retry bound
    ensures v.calls <= (if maxRetries < 0 then 0 else maxRetries)
    // malformed content or prompts: no call, a failed validation carrying the error
    ensures Normalise(content).Err? ==> v == Validation(FailedValidation(Normalise(content).error), 0)
    ensures Normalise(content).Ok? && promptFailure.Some? ==> v == Validation(FailedValidation(promptFailure.value), 0)
  {
    match Normalise(content)
    case Err(e) => Validation(FailedValidation(e), 0)
    case Ok(c) =>
      if promptFailure.Some? then Validation(FailedValidation(promptFailure.value), 0)
      else
        ValidatedBy(c, Attempt(ReplyReports(reply), 0, maxRetries))
  }

  // -----------------------------------------------------------------------
  // How the loop over the report lines behaves

  lemma CollectAllAppendOne(st: ReportScan, lines: seq<ReportLine>, line: ReportLine)
    ensures CollectAll(st, lines + [line]) == Collect(CollectAll(st, lines), line)
  {
    assert (lines + [line])[..|lines|] == lines;
  }

  /** The loop over a concatenation runs over the first part, then the
      second. */
  lemma {:induction false} CollectAllAppend(st: ReportScan, a: seq<ReportLine>, b: seq<ReportLine>)
    decreases |b|
    ensures CollectAll(st, a + b) == CollectAll(CollectAll(st, a), b)
  {
    if |b| == 0 {
      assert a + b == a;
    } else {
      var init, last := b[..|b| - 1], b[|b| - 1];
      assert a + b == (a + init) + [last];
      assert b == init + [last];
      CollectAllAppendOne(st, a + init, last);
      CollectAllAppendOne(CollectAll(st, a), init, last);
      CollectAllAppend(st, a, init);
    }
  }

  /** The last `STATUS:` line decides the status. */
  lemma LastStatusWins(st: ReportScan, lines: seq<ReportLine>, v: string)
    ensures CollectAll(st, lines + [StatusLine(v)]).status == v
  {
    CollectAllAppendOne(st, lines, StatusLine(v));
  }

  /** Without `STATUS:` lines the status stays what it was (INVALID at the
      start). */
  lemma {:induction false} StatusKept(st: ReportScan, lines: seq<ReportLine>)
    requires forall k :: 0 <= k < |lines| ==> !lines[k].StatusLine?
    decreases |lines|
    ensures CollectAll(st, lines).status == st.status
  {
    if |lines| > 0 {
      StatusKept(st, lines[..|lines| - 1]);
    }
  }

  /** Before any `ISSUES:` or `EVIDENCE:` header dash lines are dropped. */
  lemma {:induction false} ItemsBeforeHeaderIgnored(st: ReportScan, lines: seq<ReportLine>)
    requires st.current.None?
    requires forall k :: 0 <= k < |lines| ==> !lines[k].IssuesHeader? && !lines[k].EvidenceHeader?
    decreases |lines|
    ensures CollectAll(st, lines).current.None?
    ensures CollectAll(st, lines).issues == st.issues
    ensures CollectAll(st, lines).evidence == st.evidence
  {
    if |lines| > 0 {
      ItemsBeforeHeaderIgnored(st, lines[..|lines| - 1]);
    }
  }

  function Items(xs: seq<string>): (r: seq<ReportLine>)
    decreases |xs|
    ensures |r| == |xs|
    ensures forall k :: 0 <= k < |xs| ==> r[k] == ItemLine(xs[k])
  {
    if |xs| == 0 then [] else Items(xs[..|xs| - 1]) + [ItemLine(xs[|xs| - 1])]
  }

  /** Dash lines append, in order, to the list whose header came last. */
  lemma {:induction false} CollectItems(st: ReportScan, xs: seq<string>)
    decreases |xs|
    ensures st.current == Some(Issues) ==>
      CollectAll(st, Items(xs)) == st.(issues := st.issues + xs)
    ensures st.current == Some(Evidence) ==>
      CollectAll(st, Items(xs)) == st.(evidence := st.evidence + xs)
    ensures st.current.None? ==> CollectAll(st, Items(xs)) == st
  {
    if |xs| == 0 {
      assert st.issues + xs == st.issues;
      assert st.evidence + xs == st.evidence;
    } else {
      var init, x := xs[..|xs| - 1], xs[|xs| - 1];
      var mid := CollectAll(st, Items(init));
      CollectItems(st, init);
      assert CollectAll(st, Items(xs)) == Collect(mid, ItemLine(x)) by {
        assert Items(xs) == Items(init) + [ItemLine(x)];
        CollectAllAppendOne(st, Items(init), ItemLine(x));
      }
      assert xs == init + [x];
      if st.current == Some(Issues) {
        assert st.issues + init + [x] == st.issues + xs;
      } else if st.current == Some(Evidence) {
        assert st.evidence + init + [x] == st.evidence + xs;
      }
    }
  }

  // -----------------------------------------------------------------------
  // The report format the prompt asks for, and the parser's inverse

  /** Item texts the format can carry: one non-blank stripped line without
      a `[` (which would open a marker). */
  predicate IsItem(s: string) {
    IsField(s) && '[' !in s
  }

  predicate WellFormed(r: Report) {
    IsItem(r.status)
    && (forall k :: 0 <= k < |r.issues| ==> IsItem(r.issues[k]))
    && (forall k :: 0 <= k < |r.evidence| ==> IsItem(r.evidence[k]))
  }

  function Dashes(xs: seq<string>): (r: seq<string>)
    ensures |r| == |xs|
    ensures forall k :: 0 <= k < |xs| ==> r[k] == "- " + xs[k]
  {
    seq(|xs|, k requires 0 <= k < |xs| => "- " + xs[k])
  }

  function ReportLines(r: Report): seq<string> {
    ["STATUS: " + r.status, "ISSUES:"] + Dashes(r.issues) + ["EVIDENCE:"] + Dashes(r.evidence)
  }

  /** A report written out between the markers, one field per line. */
  function Render(r: Report): string {
    StartMarker + "\n" + Join(ReportLines(r), "\n") + "\n" + EndMarker
  }

  /** Parsing a rendered report gives the report back. */
  lemma RenderThenParse(r: Report)
    requires WellFormed(r)
    ensures ParseReport(Render(r)) == Some(r)
  {
    var lines := ReportLines(r);
    var body := Join(lines, "\n");
    RenderedBody(r);
    SectionOfRendered(body);
    ClassifyRendered(r);
    CollectRendered(r);
  }

  lemma ClassifyRendered(r: Report)
    requires WellFormed(r)
    ensures ClassifyReportLines(ReportLines(r))
            == [StatusLine(r.status), IssuesHeader] + Items(r.issues) + [EvidenceHeader] + Items(r.evidence)
  {
    var head := ["STATUS: " + r.status, "ISSUES:"];
    ClassifyHead(r.status);
    ClassifyDashes(r.issues);
    ClassifyDashes(r.evidence);
    ClassifyEvidenceLine();
    ClassifyLinesAppend(head, Dashes(r.issues));
    ClassifyLinesAppend(head + Dashes(r.issues), ["EVIDENCE:"]);
    ClassifyLinesAppend(head + Dashes(r.issues) + ["EVIDENCE:"], Dashes(r.evidence));
  }

  lemma ClassifyLinesAppend(a: seq<string>, b: seq<string>)
    ensures ClassifyReportLines(a + b) == ClassifyReportLines(a) + ClassifyReportLines(b)
  {
  }

  lemma ClassifyHead(status: string)
    requires IsItem(status)
    ensures ClassifyReportLines(["STATUS: " + status, "ISSUES:"]) == [StatusLine(status), IssuesHeader]
  {
    ClassifyStatusLine(status);
    ClassifyIssuesLine();
    ClassifyLinesAppend(["STATUS: " + status], ["ISSUES:"]);
    assert ["STATUS: " + status] + ["ISSUES:"] == ["STATUS: " + status, "ISSUES:"];
  }

  lemma ClassifyOne(line: string, info: ReportLine)
    requires Strip(line) == line && ClassifyReportLine(line) == info
    ensures ClassifyReportLines([line]) == [info]
  {
  }

  lemma ClassifyStatusLine(status: string)
    requires IsItem(status)
    ensures ClassifyReportLines(["STATUS: " + status]) == [StatusLine(status)]
  {
    StatusLineStripped(status);
    ClassifyStatus(status);
    ClassifyOne("STATUS: " + status, StatusLine(status));
  }

  lemma ClassifyIssuesLine()
    ensures ClassifyReportLines(["ISSUES:"]) == [IssuesHeader]
  {
    StripStripped("ISSUES:");
    ClassifyIssuesHeader();
    ClassifyOne("ISSUES:", IssuesHeader);
  }

  lemma StatusLineStripped(v: string)
    requires IsItem(v)
    ensures Strip("STATUS: " + v) == "STATUS: " + v
  {
    var line := "STATUS: " + v;
    assert line[|line| - 1] == v[|v| - 1];
    StripStripped(line);
  }

  lemma ClassifyEvidenceLine()
    ensures ClassifyReportLines(["EVIDENCE:"]) == [EvidenceHeader]
  {
    StripStripped("EVIDENCE:");
    ClassifyEvidenceHeader();
    ClassifyOne("EVIDENCE:", EvidenceHeader);
  }

  lemma ClassifyDashes(xs: seq<string>)
    requires forall k :: 0 <= k < |xs| ==> IsItem(xs[k])
    ensures ClassifyReportLines(Dashes(xs)) == Items(xs)
  {
    forall k | 0 <= k < |xs| ensures ClassifyReportLine(Strip(Dashes(xs)[k])) == ItemLine(xs[k]) {
      DashStripped(xs[k]);
      ClassifyDash(xs[k]);
    }
  }

  lemma DashStripped(item: string)
    requires IsItem(item)
    ensures Strip("- " + item) == "- " + item
  {
    var line := "- " + item;
    assert line[|line| - 1] == item[|item| - 1];
    StripStripped(line);
  }

  lemma CollectRendered(r: Report)
    ensures CollectAll(Initial, [StatusLine(r.status), IssuesHeader] + Items(r.issues)
                                + [EvidenceHeader] + Items(r.evidence)).Parsed() == r
  {
    var head := [StatusLine(r.status), IssuesHeader];
    var st1 := ReportScan(r.status, [], [], Some(Issues));
    assert CollectAll(Initial, head) == st1 by {
      assert head == [StatusLine(r.status)] + [IssuesHeader];
      CollectAllAppendOne(Initial, [StatusLine(r.status)], IssuesHeader);
      assert [StatusLine(r.status)] == [] + [StatusLine(r.status)];
      CollectAllAppendOne(Initial, [], StatusLine(r.status));
    }
    CollectItems(st1, r.issues);
    var st2 := ReportScan(r.status, r.issues, [], Some(Issues));
    assert CollectAll(st1, Items(r.issues)) == st2;
    var st3 := ReportScan(r.status, r.issues, [], Some(Evidence));
    CollectAllAppendOne(st2, [], EvidenceHeader);
    CollectItems(st3, r.evidence);
    CollectAllAppend(Initial, head, Items(r.issues));
    CollectAllAppend(Initial, head + Items(r.issues), [EvidenceHeader]);
    CollectAllAppend(Initial, head + Items(r.issues) + [EvidenceHeader], Items(r.evidence));
  }

  lemma ClassifyStatus(v: string)
    requires IsItem(v)
    ensures ClassifyReportLine("STATUS: " + v) == StatusLine(v)
  {
    StatusHeader();
    FieldLine("STATUS: ", v);
    PrefixStartsWith("STATUS: ", v, 7);
    StatusLineInfo("STATUS: " + v, v);
  }

  lemma StatusHeader()
    ensures FieldHeader("STATUS: ") && "STATUS: "[..7] == "STATUS:"
  {
  }

  lemma StatusLineInfo(line: string, v: string)
    requires StartsWith(line, "STATUS:") && FieldValue(line) == v
    ensures ClassifyReportLine(line) == StatusLine(v)
  {
  }

  lemma ClassifyIssuesHeader()
    ensures ClassifyReportLine("ISSUES:") == IssuesHeader
  {
    NotStartsWith("ISSUES:", "STATUS:");
  }

  lemma ClassifyEvidenceHeader()
    ensures ClassifyReportLine("EVIDENCE:") == EvidenceHeader
  {
    NotStartsWith("EVIDENCE:", "STATUS:");
    NotStartsWith("EVIDENCE:", "ISSUES:");
  }

  lemma ClassifyDash(item: string)
    requires IsItem(item)
    ensures ClassifyReportLine("- " + item) == ItemLine(item)
  {
    var line := "- " + item;
    NotStartsWith(line, "STATUS:");
    NotStartsWith(line, "ISSUES:");
    NotStartsWith(line, "EVIDENCE:");
    assert line[..1] == "-";
    assert line[1..] == " " + item;
    StripSpacePrefix(item);
  }

  /** The rendered lines are one-line, bracket-free, and their join is
      stripped and splits back into them. */
  lemma RenderedBody(r: Report)
    requires WellFormed(r)
    ensures var body := Join(ReportLines(r), "\n");
      body != "" && IsStripped(body) && '[' !in body
      && Split(body, "\n") == ReportLines(r)
  {
    var lines := ReportLines(r);
    forall k | 0 <= k < |lines| ensures lines[k] != "" && '[' !in lines[k] && '\n' !in lines[k] {
      RenderedLine(r, k);
    }
    forall k | 0 <= k < |lines| ensures !Contains(lines[k], "\n") {
      CharAbsent(lines[k], '\n');
    }
    JoinAvoids(lines, "\n", '[');
    JoinEnds(lines, "\n");
    LastRenderedLine(r);
    SplitJoin(lines, '\n');
  }

  lemma RenderedLine(r: Report, k: nat)
    requires WellFormed(r) && k < |ReportLines(r)|
    ensures var l := ReportLines(r)[k]; l != "" && '[' !in l && '\n' !in l
  {
    var n := |r.issues|;
    if k == 0 {
      ConcatAvoids("STATUS: ", r.status, '[');
      ConcatAvoids("STATUS: ", r.status, '\n');
    } else if 2 <= k < n + 2 {
      ConcatAvoids("- ", r.issues[k - 2], '[');
      ConcatAvoids("- ", r.issues[k - 2], '\n');
    } else if k > n + 2 {
      ConcatAvoids("- ", r.evidence[k - n - 3], '[');
      ConcatAvoids("- ", r.evidence[k - n - 3], '\n');
    }
  }

  /** The join starts with `S` and ends in the last line's last character,
      which is not blank. */
  lemma LastRenderedLine(r: Report)
    requires WellFormed(r)
    ensures var lines := ReportLines(r); var last := lines[|lines| - 1];
      lines[0][0] == 'S' && last != "" && !IsSpace(last[|last| - 1])
  {
    var lines := ReportLines(r);
    if |r.evidence| > 0 {
      var e := r.evidence[|r.evidence| - 1];
      assert lines[|lines| - 1] == "- " + e;
      assert ("- " + e)[|e| + 1] == e[|e| - 1];
    }
  }

  /** The section between the markers of a wrapped body is the body, when
      the body is stripped and has no `[`. */
  lemma SectionOfRendered(body: string)
    requires body != "" && IsStripped(body) && '[' !in body
    ensures var response := StartMarker + "\n" + body + "\n" + EndMarker;
      Contains(response, StartMarker) && Contains(response, EndMarker)
      && Section(response) == body
  {
    var inner := "\n" + body + "\n";
    assert '[' !in inner;
    assert StartMarker + "\n" + body + "\n" + EndMarker == StartMarker + inner + EndMarker;
    MarkersPresent(inner);
    AfterStartMarker(inner);
    BeforeEndMarker(inner);
    StripBetween('\n', body, '\n');
  }

  lemma MarkersPresent(inner: string)
    ensures Contains(StartMarker + inner + EndMarker, StartMarker)
    ensures Contains(StartMarker + inner + EndMarker, EndMarker)
  {
    ContainsInside("", StartMarker, inner + EndMarker);
    assert "" + StartMarker + (inner + EndMarker) == StartMarker + inner + EndMarker;
    ContainsInside(StartMarker + inner, EndMarker, "");
    assert StartMarker + inner + EndMarker + "" == StartMarker + inner + EndMarker;
  }

  /** The piece after the start marker runs to the end of the text. */
  lemma AfterStartMarker(inner: string)
    requires '[' !in inner
    ensures Split(StartMarker + inner + EndMarker, StartMarker) == ["", inner + EndMarker]
  {
    var rest := inner + EndMarker;
    assert StartMarker + inner + EndMarker == "" + StartMarker + rest;
    SplitFirst("", StartMarker, rest);
    EndLacksStart();
    AbsentAfterHead(inner, StartMarker, EndMarker);
  }

  lemma BeforeEndMarker(inner: string)
    requires '[' !in inner
    ensures Split(inner + EndMarker, EndMarker)[0] == inner
  {
    assert inner + EndMarker == inner + EndMarker + "";
    HeadlessSepOnlyAtEnd(inner, EndMarker);
    SplitFirst(inner, EndMarker, "");
  }

  lemma EndLacksStart()
    ensures !Contains(EndMarker, StartMarker)
  {
    forall j | 0 <= j && j + |StartMarker| <= |EndMarker| ensures !OccursAt(EndMarker, StartMarker, j) {
      NotAtOffset(j);
    }
    ContainsIff(EndMarker, StartMarker);
  }

  lemma NotAtOffset(j: nat)
    requires j + |StartMarker| <= |EndMarker|
    ensures EndMarker[j..j + |StartMarker|] != StartMarker
  {
    var w := EndMarker[j..j + |StartMarker|];
    if j == 0 {
      assert w[1] == 'E';
    } else {
      assert w[0] == EndMarker[j];
    }
  }

  // -----------------------------------------------------------------------
  // The retry loop and the result

  /** A reply without either marker never ends the loop. */
  lemma UnmarkedReplyRetried(text: string)
    requires !Contains(Strip(text), StartMarker)
    ensures ParseReply(Reply(text)).None?
  {
  }

  /** A result without an error text comes from a completed content and
      a chat call whose reply parsed. */
  lemma ReportFromParsedReply(content: Value, promptFailure: Option<string>, maxRetries: int,
                              reply: nat -> CallOutcome)
    requires ValidateNodeContent(content, promptFailure, maxRetries, reply).result.error.None?
    ensures var v := ValidateNodeContent(content, promptFailure, maxRetries, reply);
      Normalise(content).Ok? && promptFailure.None?
      && v.result.content == Normalise(content).value
      && v == ValidatedBy(Normalise(content).value, Attempt(ReplyReports(reply), 0, maxRetries))
  {
  }

  /** The result a finished loop gives for the normalised content. */
  function ValidatedBy(content: Value, a: Attempts): Validation {
    match a.report
    case Some(rep) => Validation(Checked(rep.status, content, rep.issues, rep.evidence, None), a.calls)
    case None => Validation(FailedValidation(""), a.calls)
  }

  /** The loop stops at the first chat call whose reply parses, and that
      reply's report is the one kept. */
  lemma FirstParsableReplyDecides(reply: nat -> CallOutcome, maxRetries: int)
    ensures var a := Attempt(ReplyReports(reply), 0, maxRetries);
      a.report.Some? ==>
        0 < a.calls <= maxRetries && ParseReply(reply(a.calls - 1)) == a.report
        && forall k :: 0 <= k < a.calls - 1 ==> ParseReply(reply(k)).None?
  {
    var a := Attempt(ReplyReports(reply), 0, maxRetries);
    if a.report.Some? {
      assert ReplyReports(reply)(a.calls - 1) == ParseReply(reply(a.calls - 1));
      forall k | 0 <= k < a.calls - 1 ensures ParseReply(reply(k)).None? {
        assert ReplyReports(reply)(k).None?;
      }
    }
  }

  /** When no reply parses, the result is FAILED with the default error
      text, after every attempt has been spent. */
  lemma AllAttemptsFail(content: Value, maxRetries: int, reply: nat -> CallOutcome)
    requires Normalise(content).Ok?
    requires forall k :: 0 <= k < maxRetries ==> ParseReply(reply(k)).None?
    ensures var v := ValidateNodeContent(content, None, maxRetries, reply);
      v.result == FailedValidation("") && v.result.error == Some(DefaultError)
      && v.calls == (if maxRetries < 0 then 0 else maxRetries)
  {
    forall k: nat | k < maxRetries ensures ReplyReports(reply)(k).None? { }
    NoReportSpendsAll(ReplyReports(reply), maxRetries);
    LoopDecides(content, maxRetries, reply);
  }

  /** Well-formed content and prompts leave the outcome to the retry loop. */
  lemma LoopDecides(content: Value, maxRetries: int, reply: nat -> CallOutcome)
    requires Normalise(content).Ok?
    ensures ValidateNodeContent(content, None, maxRetries, reply)
            == ValidatedBy(Normalise(content).value, Attempt(ReplyReports(reply), 0, maxRetries))
  {
  }

  /** With no parsable reply the loop spends every attempt and ends with
      nothing. */
  lemma NoReportSpendsAll(parsed: nat -> Option<Report>, maxRetries: int)
    requires forall k: nat :: k < maxRetries ==> parsed(k).None?
    ensures Attempt(parsed, 0, maxRetries) == Attempts(None, if maxRetries < 0 then 0 else maxRetries)
  {
  }

  /** Normalising keeps every field the content had and adds each missing
      default; a string lands in `detailed_results`. */
  lemma NormaliseCompletes(content: Value)
    requires content.Str? || content.Dict?
    ensures var m := Normalise(content).value.entries;
      (forall i :: 0 <= i < |ContentDefaults| ==> ContentDefaults[i].0 in m)
      && (content.Dict? ==> forall k :: k in content.entries ==> k in m && m[k] == content.entries[k])
      && (content.Str? ==> m["detailed_results"] == content)
  {
  }

  /** A rendered report returned by the first call is the result. */
  lemma {:induction false} FirstReportAccepted(content: Value, maxRetries: int, reply: nat -> CallOutcome, r: Report)
    requires Normalise(content).Ok? && maxRetries > 0
    requires WellFormed(r) && reply(0) == Reply(Render(r))
    ensures ValidateNodeContent(content, None, maxRetries, reply)
            == Validation(Checked(r.status, Normalise(content).value, r.issues, r.evidence, None), 1)
  {
    RenderedReplyParses(r);
    assert ReplyReports(reply)(0) == Some(r);
    assert Attempt(ReplyReports(reply), 0, maxRetries) == Attempts(Some(r), 1);
  }

  lemma RenderedReplyParses(r: Report)
    requires WellFormed(r)
    ensures ParseReply(Reply(Render(r))) == Some(r)
  {
    RenderThenParse(r);
    MarkerEnds();
    FramedStripped(StartMarker, Join(ReportLines(r), "\n"), EndMarker);
    StrippedReplyParses(Render(r), r);
  }

  lemma MarkerEnds()
    ensures !IsSpace(StartMarker[0]) && !IsSpace(EndMarker[|EndMarker| - 1])
  {
  }

  /** Text framed by non-blank ends is stripped. */
  lemma FramedStripped(a: string, mid: string, b: string)
    requires |a| > 0 && |b| > 0 && !IsSpace(a[0]) && !IsSpace(b[|b| - 1])
    ensures IsStripped(a + "\n" + mid + "\n" + b)
  {
    var t := a + "\n" + mid + "\n" + b;
    assert t[0] == a[0];
    assert t[|t| - 1] == b[|b| - 1];
  }

  lemma StrippedReplyParses(text: string, r: Report)
    requires IsStripped(text) && ParseReport(text) == Some(r)
    ensures ParseReply(Reply(text)) == Some(r)
  {
    StripStripped(text);
  }
}
